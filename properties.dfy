/**
  What the handlers of the task board promise, stated over the functions of
  module Transitions: the invariant they keep, the effect each has on the
  task list and on the intervals, the countdown, and the on-load restart.
 */
module Properties {
  import opened Wrappers
  import opened Tasks
  import opened Transitions

  // ---------------------------------------------------------------- helpers

  /** Replacing the task at `i` by one with the same id keeps every other task and distinct ids. */
  lemma UpdateAt(ts: seq<Task>, i: nat, x: Task)
    requires i < |ts| && x.id == ts[i].id
    ensures forall t :: t in ts[i := x] ==> t == x || t in ts
    ensures forall t :: t in ts && t.id != x.id ==> t in ts[i := x]
    ensures UniqueIds(ts) ==> UniqueIds(ts[i := x])
    ensures UniqueIds(ts) ==> forall t :: t in ts[i := x] && t.id == x.id ==> t == x
  {
    forall t | t in ts[i := x] ensures t == x || t in ts {
      var j :| 0 <= j < |ts| && ts[i := x][j] == t;
      if j != i {
        assert ts[j] == t;
      }
    }
    forall t | t in ts && t.id != x.id ensures t in ts[i := x] {
      var j :| 0 <= j < |ts| && ts[j] == t;
      assert ts[i := x][j] == t;
    }
  }

  /** Under the invariant, the task a live interval counts down is found by `find`. */
  lemma LiveTask(s: State, h: nat) returns (i: nat)
    requires Valid(s) && h in s.live
    ensures i < |s.tasks| && s.tasks[i].id == s.live[h] && s.tasks[i].status == InProgress
    ensures IndexOf(s.tasks, s.live[h]) == Some(i)
  {
    var t :| t in s.tasks && t.id == s.live[h] && t.status == InProgress;
    i :| 0 <= i < |s.tasks| && s.tasks[i] == t;
    IndexOfUnique(s.tasks, i);
  }

  /**
    Stopping the interval registered under `id` keeps the invariant, leaves
    no live interval for `id`, and touches no other id's intervals.
   */
  lemma ClearTimerEffect(s: State, id: int)
    requires Valid(s)
    ensures Valid(ClearTimer(s, id))
    ensures ClearTimer(s, id).tasks == s.tasks && ClearTimer(s, id).timers == s.timers
    ensures LiveHandles(ClearTimer(s, id), id) == {}
    ensures forall other :: other != id ==> LiveHandles(ClearTimer(s, id), other) == LiveHandles(s, other)
    ensures forall other :: other != id && TimedId(s, other) ==> TimedId(ClearTimer(s, id), other)
  {
    var r := ClearTimer(s, id);
    forall other | other != id
      ensures LiveHandles(r, other) == LiveHandles(s, other)
      ensures TimedId(s, other) ==> TimedId(r, other)
    {
      if id in s.timers {
        var gone := s.timers[id];
        forall h | h in s.live && s.live[h] == other ensures h in r.live && r.live[h] == other {
          assert h != gone;
        }
      }
    }
  }

  /**
    Starting the interval of a task in progress keeps the invariant and
    leaves exactly one live interval for it, the new handle; no other id's
    intervals change.
   */
  lemma StartTimerEffect(s: State, id: int)
    requires Valid(s) && Running(s.tasks, id)
    ensures Valid(StartTimer(s, id))
    ensures StartTimer(s, id).tasks == s.tasks && StartTimer(s, id).dragTaskId == s.dragTaskId
    ensures LiveHandles(StartTimer(s, id), id) == {s.nextHandle} && TimedId(StartTimer(s, id), id)
    ensures forall other :: other != id ==> LiveHandles(StartTimer(s, id), other) == LiveHandles(s, other)
    ensures forall other :: other != id && TimedId(s, other) ==> TimedId(StartTimer(s, id), other)
  {
    ClearTimerEffect(s, id);
  }

  /**
    Replacing a task by one with the same id keeps the invariant, provided
    the new record counts down exactly while in progress and is in progress
    if an interval still counts it down.
   */
  lemma ReplaceTask(s: State, i: nat, x: Task)
    requires Valid(s) && i < |s.tasks| && x.id == s.tasks[i].id
    requires x.remainingTime.Some? <==> x.status == InProgress
    requires x.status == InProgress || LiveHandles(s, x.id) == {}
    ensures Valid(s.(tasks := s.tasks[i := x]))
    ensures x.status == InProgress ==> Running(s.tasks[i := x], x.id)
    ensures (forall t :: t in s.tasks && t.status == InProgress && t.id != x.id ==> TimedId(s, t.id))
            && (x.status == InProgress ==> TimedId(s, x.id))
            ==> Timed(s.(tasks := s.tasks[i := x]))
  {
    var ts := s.tasks[i := x];
    UpdateAt(s.tasks, i, x);
    assert ts[i] == x;
    forall h | h in s.live ensures Running(ts, s.live[h]) {
      if s.live[h] == x.id {
        assert h in LiveHandles(s, x.id);
      }
    }
  }

  // ---------------------------------------------------------------- adding

  /**
    Saving a blank name (every character white space) changes nothing;
    otherwise exactly one task is appended, not started, with the trimmed
    name, the given due date and priority and no countdown, and nothing else
    changes.
   */
  lemma AddTaskEffect(s: State, id: int, rawName: string, due: string, priority: string)
    ensures AddTask(s, id, rawName, due, priority) == s
            <==> forall k :: 0 <= k < |rawName| ==> IsJsSpace(rawName[k])
    ensures Trim(rawName) != [] ==>
              AddTask(s, id, rawName, due, priority)
              == s.(tasks := s.tasks + [Task(id, Trim(rawName), due, priority, NotStarted, None)])
  {
    TrimIsEmptyIffBlank(rawName);
    if Trim(rawName) != [] {
      assert |AddTask(s, id, rawName, due, priority).tasks| == |s.tasks| + 1;
    }
  }

  /** Adding a task under an id no task carries keeps the invariant. */
  lemma AddTaskKeepsInvariant(s: State, id: int, rawName: string, due: string, priority: string)
    requires Valid(s) && !HasId(s.tasks, id)
    ensures Valid(AddTask(s, id, rawName, due, priority))
    ensures Timed(s) ==> Timed(AddTask(s, id, rawName, due, priority))
  {
    var r := AddTask(s, id, rawName, due, priority);
    if Trim(rawName) != [] {
      var x := Task(id, Trim(rawName), due, priority, NotStarted, None);
      assert r.tasks == s.tasks + [x];
      forall a, b | 0 <= a < b < |r.tasks| ensures r.tasks[a].id != r.tasks[b].id {
        if b == |s.tasks| {
          assert s.tasks[a] in s.tasks;
        }
      }
      forall h | h in s.live ensures Running(r.tasks, s.live[h]) {
        var t :| t in s.tasks && t.id == s.live[h] && t.status == InProgress;
        assert t in r.tasks;
      }
    }
  }

  // ---------------------------------------------------------------- missing ids

  /**
    `updatePriority`, `updateStatus` and `editTask` given an id that no task
    carries leave the board as it is, in every state.
   */
  lemma MissingIdIsNoOp(s: State, id: int, val: string, st: Status, reply: Option<string>)
    requires !HasId(s.tasks, id)
    ensures UpdatePriority(s, id, val) == s
    ensures UpdateStatus(s, id, st) == s
    ensures EditTask(s, id, reply) == s
  {
  }

  /**
    `deleteTask` given an id that no task carries leaves the board as it is:
    in a valid state a `timers` key left over for that id names no live
    interval, so `clearInterval` stops nothing.
   */
  lemma MissingIdDeleteIsNoOp(s: State, id: int)
    requires Valid(s) && !HasId(s.tasks, id)
    ensures DeleteTask(s, id) == s
  {
    forall j | 0 <= j < |s.tasks| ensures s.tasks[j].id != id {
      assert s.tasks[j] in s.tasks;
    }
    WithoutAbsent(s.tasks, id);
  }

  // ---------------------------------------------------------------- priority and name

  /** `updatePriority` on a present id changes that task's priority and nothing else. */
  lemma UpdatePriorityEffect(s: State, i: nat, val: string)
    requires Valid(s) && i < |s.tasks|
    ensures UpdatePriority(s, s.tasks[i].id, val) == s.(tasks := s.tasks[i := s.tasks[i].(priority := val)])
    ensures Valid(UpdatePriority(s, s.tasks[i].id, val))
    ensures Timed(s) ==> Timed(UpdatePriority(s, s.tasks[i].id, val))
  {
    IndexOfUnique(s.tasks, i);
    var x := s.tasks[i].(priority := val);
    assert s.tasks[i] in s.tasks;
    if x.status == InProgress {
      assert x.remainingTime.Some?;
    } else {
      LiveHandlesOfIdle(s, i);
    }
    ReplaceTask(s, i, x);
  }

  /**
    `editTask` on a present id renames that task when the reply is a
    non-empty string and otherwise changes nothing.
   */
  lemma EditTaskEffect(s: State, i: nat, reply: Option<string>)
    requires Valid(s) && i < |s.tasks|
    ensures EditTask(s, s.tasks[i].id, reply)
            == if reply.Some? && reply.value != [] then s.(tasks := s.tasks[i := s.tasks[i].(name := reply.value)])
               else s
    ensures Valid(EditTask(s, s.tasks[i].id, reply))
    ensures Timed(s) ==> Timed(EditTask(s, s.tasks[i].id, reply))
  {
    IndexOfUnique(s.tasks, i);
    if reply.Some? && reply.value != [] {
      var x := s.tasks[i].(name := reply.value);
      assert s.tasks[i] in s.tasks;
      if x.status != InProgress {
        LiveHandlesOfIdle(s, i);
      }
      ReplaceTask(s, i, x);
    }
  }

  /** No live interval counts down a task that is not in progress. */
  lemma LiveHandlesOfIdle(s: State, i: nat)
    requires Valid(s) && i < |s.tasks| && s.tasks[i].status != InProgress
    ensures LiveHandles(s, s.tasks[i].id) == {}
  {
    var id := s.tasks[i].id;
    if h :| h in LiveHandles(s, id) {
      assert false;
    }
  }

  // ---------------------------------------------------------------- status

  /**
    `updateStatus(id, "in-progress")` on a present id: the task is in
    progress, keeps a non-zero countdown or starts one at 1500, and has
    exactly one live interval, the new one (the one it had is stopped
    first); no other task's intervals change.
   */
  lemma EnterInProgressEffect(s: State, i: nat)
    requires Valid(s) && i < |s.tasks|
    ensures var id, r := s.tasks[i].id, UpdateStatus(s, s.tasks[i].id, InProgress);
            && r.tasks == s.tasks[i := s.tasks[i].(status := InProgress,
                 remainingTime := if Truthy(s.tasks[i].remainingTime) then s.tasks[i].remainingTime
                                  else Some(DefaultCountdown))]
            && LiveHandles(r, id) == {s.nextHandle}
            && (forall other :: other != id ==> LiveHandles(r, other) == LiveHandles(s, other))
            && r.dragTaskId == s.dragTaskId
            && Valid(r) && (Timed(s) ==> Timed(r))
  {
    var id := s.tasks[i].id;
    IndexOfUnique(s.tasks, i);
    var x := WithStatus(s.tasks[i], InProgress);
    ReplaceTask(s, i, x);
    UpdateAt(s.tasks, i, x);
    var marked := s.(tasks := s.tasks[i := x]);
    StartTimerEffect(marked, id);
    var r := StartTimer(marked, id);
    assert r == UpdateStatus(s, id, InProgress);
    if Timed(s) {
      forall t | t in r.tasks && t.status == InProgress ensures TimedId(r, t.id) {
        if t.id != id {
          assert TimedId(marked, t.id);
        }
      }
    }
  }

  /**
    `updateStatus(id, s)` with `s` other than in-progress, on a present id:
    the task takes status `s` and loses its countdown, no live interval
    counts it down any more and its key is gone from `timers`; no other
    task's intervals change.
   */
  lemma LeaveInProgressEffect(s: State, i: nat, st: Status)
    requires Valid(s) && i < |s.tasks| && st != InProgress
    ensures var id, r := s.tasks[i].id, UpdateStatus(s, s.tasks[i].id, st);
            && r.tasks == s.tasks[i := s.tasks[i].(status := st, remainingTime := None)]
            && LiveHandles(r, id) == {} && id !in r.timers
            && (forall other :: other != id ==> LiveHandles(r, other) == LiveHandles(s, other))
            && r.dragTaskId == s.dragTaskId
            && Valid(r) && (Timed(s) ==> Timed(r))
  {
    var id := s.tasks[i].id;
    IndexOfUnique(s.tasks, i);
    var x := WithStatus(s.tasks[i], st);
    ClearTimerEffect(s, id);
    var c0 := ClearTimer(s, id);
    var c1 := c0.(timers := c0.timers - {id});
    forall h | h in c1.live ensures c1.live[h] != id {
      assert h !in LiveHandles(c0, id);
    }
    assert LiveHandles(c1, id) == {};
    ReplaceTask(c1, i, x);
    UpdateAt(s.tasks, i, x);
    var r := c1.(tasks := c1.tasks[i := x]);
    assert r == UpdateStatus(s, id, st);
    assert forall other :: LiveHandles(r, other) == LiveHandles(c0, other);
    if Timed(s) {
      forall t | t in c1.tasks && t.status == InProgress && t.id != id ensures TimedId(c1, t.id) {
        assert TimedId(c0, t.id);
      }
    }
  }

  /** `updateStatus` keeps the invariant, on any id and any status. */
  lemma UpdateStatusKeepsInvariant(s: State, id: int, st: Status)
    requires Valid(s)
    ensures Valid(UpdateStatus(s, id, st))
    ensures Timed(s) ==> Timed(UpdateStatus(s, id, st))
  {
    match IndexOf(s.tasks, id)
    case None =>
    case Some(i) =>
      if st == InProgress {
        EnterInProgressEffect(s, i);
      } else {
        LeaveInProgressEffect(s, i, st);
      }
  }

  /** An id has a live interval exactly when some live handle counts it down. */
  lemma InLiveIds(s: State, id: int)
    ensures id in LiveIds(s) <==> LiveHandles(s, id) != {}
  {
    if id in LiveIds(s) {
      var h :| h in s.live && s.live[h] == id;
      assert h in LiveHandles(s, id);
    }
  }

  /**
    Selecting in-progress twice leaves the same tasks and the same set of
    ids with a live interval as selecting it once, and still exactly one
    interval for that task: the second call restarts, it does not add.
   */
  lemma EnterInProgressTwice(s: State, i: nat)
    requires Valid(s) && i < |s.tasks|
    ensures var id := s.tasks[i].id;
            var once := UpdateStatus(s, id, InProgress);
            var twice := UpdateStatus(once, id, InProgress);
            twice.tasks == once.tasks && LiveIds(twice) == LiveIds(once) && |LiveHandles(twice, id)| == 1
  {
    var id := s.tasks[i].id;
    EnterInProgressEffect(s, i);
    var once := UpdateStatus(s, id, InProgress);
    EnterInProgressEffect(once, i);
    var twice := UpdateStatus(once, id, InProgress);
    forall other ensures other in LiveIds(twice) <==> other in LiveIds(once) {
      InLiveIds(once, other);
      InLiveIds(twice, other);
    }
  }

  // ---------------------------------------------------------------- ticks

  /**
    One firing of a live interval: a positive countdown goes down by exactly
    one and nothing else changes; a countdown at 0 marks the task done,
    drops the countdown and stops the interval (its key stays in `timers`).
   */
  lemma TickEffect(s: State, h: nat, i: nat)
    requires Valid(s) && h in s.live && i < |s.tasks| && s.tasks[i].id == s.live[h]
    ensures s.tasks[i].status == InProgress && s.tasks[i].remainingTime.Some?
    ensures TicksDown(s.tasks[i]) ==>
              Tick(s, h) == s.(tasks := s.tasks[i := s.tasks[i].(remainingTime := Some(s.tasks[i].remainingTime.value - 1))])
    ensures !TicksDown(s.tasks[i]) ==>
              Tick(s, h) == s.(tasks := s.tasks[i := s.tasks[i].(status := Done, remainingTime := None)],
                               live := s.live - {h})
    ensures Valid(Tick(s, h)) && (Timed(s) ==> Timed(Tick(s, h)))
  {
    var id := s.live[h];
    var k := LiveTask(s, h);
    IndexOfUnique(s.tasks, i);
    var t := s.tasks[i];
    assert t in s.tasks;
    var x := Ticked(t);
    UpdateAt(s.tasks, i, x);
    if TicksDown(t) {
      ReplaceTask(s, i, x);
    } else {
      ClearTimerEffect(s, id);
      var c := ClearTimer(s, id);
      ReplaceTask(c, i, x);
      assert Tick(s, h) == c.(tasks := c.tasks[i := x]);
      if Timed(s) {
        forall u | u in c.tasks && u.status == InProgress && u.id != id ensures TimedId(c, u.id) {
        }
      }
    }
  }

  /** A cleared interval never fires again. */
  lemma {:induction false} TickRepeatIdle(s: State, h: nat, k: nat)
    requires h !in s.live
    ensures TickRepeat(s, h, k) == s
    decreases k
  {
    if k > 0 {
      TickRepeatIdle(s, h, k - 1);
    }
  }

  /**
    `k` firings of a live interval act on its task as `k` ticks of the
    record and on nothing else: the only other change is that the interval
    stops once the task is done.
   */
  lemma {:induction false} TickRepeatEffect(s: State, h: nat, i: nat, k: nat)
    requires Valid(s) && h in s.live && i < |s.tasks| && s.tasks[i].id == s.live[h]
    ensures TickRepeat(s, h, k) ==
              s.(tasks := s.tasks[i := Ticks(s.tasks[i], k)],
                 live := if Ticks(s.tasks[i], k).status == InProgress then s.live else s.live - {h})
    ensures h in TickRepeat(s, h, k).live <==> Ticks(s.tasks[i], k).status == InProgress
    decreases k
  {
    TickEffect(s, h, i);
    var t := s.tasks[i];
    if k == 0 {
      assert s.tasks[i := t] == s.tasks;
    } else {
      var next := Tick(s, h);
      if TicksDown(t) {
        assert next == s.(tasks := s.tasks[i := Ticked(t)]);
        TickRepeatEffect(next, h, i, k - 1);
        assert Ticks(t, k) == Ticks(Ticked(t), k - 1);
        assert next.tasks[i := Ticks(Ticked(t), k - 1)] == s.tasks[i := Ticks(t, k)];
      } else {
        assert Ticks(t, k) == Ticked(t) && Ticked(t).status == Done;
        TickRepeatIdle(next, h, k - 1);
      }
    }
  }

  /** Any number of firings of any handle keeps `Valid`, and `Timed`. */
  lemma {:induction false} TickRepeatKeepsInvariant(s: State, h: nat, k: nat)
    requires Valid(s)
    ensures Valid(TickRepeat(s, h, k)) && (Timed(s) ==> Timed(TickRepeat(s, h, k)))
    decreases k
  {
    if k > 0 {
      if h in s.live {
        var i := LiveTask(s, h);
        TickEffect(s, h, i);
      }
      TickRepeatKeepsInvariant(Tick(s, h), h, k - 1);
    }
  }

  /**
    From a countdown of `n` seconds, `n` firings bring it to 0 with the task
    still in progress and its interval live; firing `n + 1` marks it done,
    drops the countdown and stops the interval. Other tasks are untouched.
   */
  lemma CountdownReachesDone(s: State, h: nat, i: nat, n: nat)
    requires Valid(s) && h in s.live && i < |s.tasks| && s.tasks[i].id == s.live[h]
    requires s.tasks[i].remainingTime == Some(n)
    ensures TickRepeat(s, h, n).tasks == s.tasks[i := s.tasks[i].(remainingTime := Some(0))]
    ensures h in TickRepeat(s, h, n).live
    ensures TickRepeat(s, h, n + 1).tasks == s.tasks[i := s.tasks[i].(status := Done, remainingTime := None)]
    ensures h !in TickRepeat(s, h, n + 1).live
  {
    TickEffect(s, h, i);
    CountdownTicks(s.tasks[i], n);
    TickRepeatEffect(s, h, i, n);
    TickRepeatEffect(s, h, i, n + 1);
  }

  /** A task that no live interval counts down is left as it is by every firing. */
  lemma UntimedTaskIgnoresTicks(s: State, h: nat, i: nat)
    requires Valid(s) && i < |s.tasks| && LiveHandles(s, s.tasks[i].id) == {}
    ensures |Tick(s, h).tasks| == |s.tasks| && Tick(s, h).tasks[i] == s.tasks[i]
  {
    if h in s.live {
      assert h !in LiveHandles(s, s.tasks[i].id);
    }
  }

  // ---------------------------------------------------------------- intervals per task

  /** In every reachable state no task has two live intervals. */
  lemma AtMostOneInterval(s: State, id: int)
    requires Valid(s)
    ensures |LiveHandles(s, id)| <= 1
  {
    if h :| h in LiveHandles(s, id) {
      assert LiveHandles(s, id) == {h};
    }
  }

  /**
    With every task in progress timed, a task has exactly one live interval
    when it is in progress and none otherwise.
   */
  lemma OneIntervalPerRunningTask(s: State, i: nat)
    requires Valid(s) && Timed(s) && i < |s.tasks|
    ensures s.tasks[i].status == InProgress ==> LiveHandles(s, s.tasks[i].id) == {s.timers[s.tasks[i].id]}
    ensures s.tasks[i].status != InProgress ==> LiveHandles(s, s.tasks[i].id) == {}
  {
    assert s.tasks[i] in s.tasks;
    if s.tasks[i].status == InProgress {
      AtMostOneInterval(s, s.tasks[i].id);
      assert s.timers[s.tasks[i].id] in LiveHandles(s, s.tasks[i].id);
    } else {
      LiveHandlesOfIdle(s, i);
    }
  }

  // ---------------------------------------------------------------- delete

  /**
    `deleteTask` on a present id removes that one task, keeps every other
    task in order, and leaves no live interval for it; the key stays in
    `timers` and no other task's intervals change.
   */
  lemma DeleteTaskEffect(s: State, i: nat)
    requires Valid(s) && i < |s.tasks|
    ensures var id, r := s.tasks[i].id, DeleteTask(s, s.tasks[i].id);
            && r.tasks == s.tasks[..i] + s.tasks[i + 1..]
            && LiveHandles(r, id) == {}
            && (forall other :: other != id ==> LiveHandles(r, other) == LiveHandles(s, other))
            && r.timers == s.timers && r.dragTaskId == s.dragTaskId
            && Valid(r) && (Timed(s) ==> Timed(r))
  {
    var id := s.tasks[i].id;
    WithoutAt(s.tasks, i);
    RemoveAtKeepsUnique(s.tasks, i);
    ClearTimerEffect(s, id);
    var c := ClearTimer(s, id);
    var r := DeleteTask(s, id);
    forall h | h in r.live ensures Running(r.tasks, r.live[h]) {
      assert h !in LiveHandles(c, id);
      var t :| t in s.tasks && t.id == r.live[h] && t.status == InProgress;
      assert t in r.tasks;
    }
  }

  /** `deleteTask` keeps the invariant, on any id. */
  lemma DeleteTaskKeepsInvariant(s: State, id: int)
    requires Valid(s)
    ensures Valid(DeleteTask(s, id))
    ensures Timed(s) ==> Timed(DeleteTask(s, id))
  {
    match IndexOf(s.tasks, id)
    case None =>
      MissingIdDeleteIsNoOp(s, id);
    case Some(i) =>
      DeleteTaskEffect(s, i);
  }

  // ---------------------------------------------------------------- drag and drop

  /**
    A drop with nothing dragged, or with the falsy id 0, changes nothing;
    otherwise it is
    `updateStatus` to the zone's status followed by clearing the dragged id.
    Afterwards nothing is dragged, unless the dragged id was the falsy 0.
   */
  lemma DropEffect(s: State, zone: DropZone)
    ensures !(s.dragTaskId.Some? && s.dragTaskId.value != 0) ==> Drop(s, zone) == s
    ensures s.dragTaskId.Some? && s.dragTaskId.value != 0 ==>
              Drop(s, zone) == UpdateStatus(s, s.dragTaskId.value, Target(zone)).(dragTaskId := None)
    ensures Drop(s, zone).dragTaskId == if s.dragTaskId == Some(0) then Some(0) else None
    ensures Valid(s) ==> Valid(Drop(s, zone)) && (Timed(s) ==> Timed(Drop(s, zone)))
  {
    if Valid(s) && s.dragTaskId.Some? {
      UpdateStatusKeepsInvariant(s, s.dragTaskId.value, Target(zone));
    }
  }

  // ---------------------------------------------------------------- on load

  /**
    The on-load loop over the first `k` tasks, with the corrected test,
    keeps the tasks and the invariant and gives each of those tasks that is
    in progress its live interval.
   */
  lemma {:induction false} RestartUpToEffect(s: State, k: nat)
    requires Valid(s) && k <= |s.tasks|
    ensures RestartUpTo(s, k, RestartsOnLoad).tasks == s.tasks
    ensures RestartUpTo(s, k, RestartsOnLoad).dragTaskId == s.dragTaskId
    ensures Valid(RestartUpTo(s, k, RestartsOnLoad))
    ensures forall j :: 0 <= j < k && s.tasks[j].status == InProgress ==>
              TimedId(RestartUpTo(s, k, RestartsOnLoad), s.tasks[j].id)
    decreases k
  {
    if k > 0 {
      RestartUpToEffect(s, k - 1);
      var before := RestartUpTo(s, k - 1, RestartsOnLoad);
      var t := s.tasks[k - 1];
      if t.status == InProgress {
        assert t in before.tasks;
        StartTimerEffect(before, t.id);
        forall j | 0 <= j < k - 1 && s.tasks[j].status == InProgress
          ensures TimedId(StartTimer(before, t.id), s.tasks[j].id)
        {
          assert s.tasks[j].id != t.id;
        }
      }
    }
  }

  /**
    The on-load loop over the first `k` tasks, with the test as script.js:184
    writes it, keeps the tasks and the invariant; it gives each of those
    tasks that passes the test its live interval, and leaves the intervals of
    each task the test skips exactly as they were.
   */
  lemma {:induction false} RestartUpToAsWrittenEffect(s: State, k: nat)
    requires Valid(s) && k <= |s.tasks|
    ensures RestartUpTo(s, k, RestartsOnLoadAsWritten).tasks == s.tasks
    ensures RestartUpTo(s, k, RestartsOnLoadAsWritten).dragTaskId == s.dragTaskId
    ensures Valid(RestartUpTo(s, k, RestartsOnLoadAsWritten))
    ensures forall j :: 0 <= j < k && RestartsOnLoadAsWritten(s.tasks[j]) ==>
              TimedId(RestartUpTo(s, k, RestartsOnLoadAsWritten), s.tasks[j].id)
    ensures forall j :: 0 <= j < |s.tasks| && !(j < k && RestartsOnLoadAsWritten(s.tasks[j])) ==>
              LiveHandles(RestartUpTo(s, k, RestartsOnLoadAsWritten), s.tasks[j].id) == LiveHandles(s, s.tasks[j].id)
    decreases k
  {
    if k > 0 {
      RestartUpToAsWrittenEffect(s, k - 1);
      var before := RestartUpTo(s, k - 1, RestartsOnLoadAsWritten);
      var t := s.tasks[k - 1];
      if RestartsOnLoadAsWritten(t) {
        assert t in before.tasks;
        StartTimerEffect(before, t.id);
        forall j | 0 <= j < |s.tasks| && j != k - 1
          ensures s.tasks[j].id != t.id
          ensures LiveHandles(StartTimer(before, t.id), s.tasks[j].id) == LiveHandles(before, s.tasks[j].id)
        {
        }
      }
    }
  }

  /** The corrected on-load loop leaves every task in progress with its interval running. */
  lemma RestartTimersEffect(s: State)
    requires Valid(s)
    ensures RestartTimers(s).tasks == s.tasks && RestartTimers(s).dragTaskId == s.dragTaskId
    ensures Valid(RestartTimers(s)) && Timed(RestartTimers(s))
  {
    RestartUpToEffect(s, |s.tasks|);
    var r := RestartTimers(s);
    forall t | t in r.tasks && t.status == InProgress ensures TimedId(r, t.id) {
      var j :| 0 <= j < |s.tasks| && s.tasks[j] == t;
    }
  }

  /**
    As script.js:184 writes it, the loop skips a task saved in progress with
    a countdown of 0 (saved in the second between reaching 0 and the
    expiring tick): after loading, that task has no interval, so no firing
    ever marks it done and it stays in Do Now at 00:00:00.
   */
  lemma RestartAsWrittenStrandsExpiredTask(h: nat, k: nat)
    ensures var t := Task(1, "Write report", "", "medium", InProgress, Some(0));
            var s := Initial(Some([t]));
            var loaded := RestartUpTo(s, 1, RestartsOnLoadAsWritten);
            && Valid(s)
            && loaded == s && !Timed(loaded)
            && TickRepeat(loaded, h, k).tasks == [t]
  {
    var t := Task(1, "Write report", "", "medium", InProgress, Some(0));
    var s := Initial(Some([t]));
    assert !RestartsOnLoadAsWritten(t);
    assert RestartUpTo(s, 1, RestartsOnLoadAsWritten) == s;
    assert t in s.tasks && !TimedId(s, t.id);
    TickRepeatIdle(s, h, k);
  }
}
