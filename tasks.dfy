/**
  Task records of the board (the objects held in `tasklist`), the
  field-level changes the handlers make to one record, the lookups the
  handlers use (`Array.prototype.find`, `filter`, `String.prototype.trim`)
  and the status partition `renderTasks` draws.
 */
module Tasks {
  import opened Wrappers
  import opened TimeFormat

  datatype Status = NotStarted | InProgress | Done

  /**
    A task record. `priority` is whatever string the select control
    delivered: the code stores it without checking it. `remainingTime` is
    the countdown in seconds, absent (`undefined`) outside `in-progress`.
   */
  datatype Task = Task(id: int, name: string, due: string, priority: string,
                       status: Status, remainingTime: Option<nat>)

  /** Seconds a countdown starts from: 25 minutes. */
  const DefaultCountdown: nat := 1500

  /** JavaScript truthiness of an optional count: `undefined` and 0 are false. */
  predicate Truthy(n: Option<nat>)
  {
    n.Some? && n.value != 0
  }

  // ---------------------------------------------------------------- trim

  /** The characters `String.prototype.trim` removes: white space and line terminators. */
  predicate IsJsSpace(c: char)
  {
    c == ' ' || c == '\t' || c == '\n' || c == '\r' || c == '\U{000B}' || c == '\U{000C}'
    || c == '\U{00A0}' || c == '\U{1680}' || ('\U{2000}' <= c <= '\U{200A}')
    || c == '\U{2028}' || c == '\U{2029}' || c == '\U{202F}' || c == '\U{205F}'
    || c == '\U{3000}' || c == '\U{FEFF}'
  }

  /** Drops leading white space: what is left is a suffix that starts with a non-space. */
  function TrimStart(s: string): (r: string)
    ensures |r| <= |s| && r == s[|s| - |r|..]
    ensures r == [] || !IsJsSpace(r[0])
    ensures forall i :: 0 <= i < |s| - |r| ==> IsJsSpace(s[i])
  {
    if s != [] && IsJsSpace(s[0]) then TrimStart(s[1..]) else s
  }

  /** Drops trailing white space: what is left is a prefix that ends with a non-space. */
  function TrimEnd(s: string): (r: string)
    ensures |r| <= |s| && r == s[..|r|]
    ensures r == [] || !IsJsSpace(r[|r| - 1])
    ensures forall i :: |r| <= i < |s| ==> IsJsSpace(s[i])
  {
    if s != [] && IsJsSpace(s[|s| - 1]) then TrimEnd(s[..|s| - 1]) else s
  }

  function Trim(s: string): string
  {
    TrimEnd(TrimStart(s))
  }

  /** A name trims to nothing exactly when every character of it is white space. */
  lemma TrimIsEmptyIffBlank(s: string)
    ensures Trim(s) == [] <==> forall i :: 0 <= i < |s| ==> IsJsSpace(s[i])
  {
    var u := TrimStart(s);
    if Trim(s) == [] {
      assert u == [];
    }
  }

  // ---------------------------------------------------------------- lookups

  /** All ids in the list are distinct. */
  predicate UniqueIds(tasks: seq<Task>)
  {
    forall i, j :: 0 <= i < j < |tasks| ==> tasks[i].id != tasks[j].id
  }

  predicate HasId(tasks: seq<Task>, id: int)
  {
    exists t :: t in tasks && t.id == id
  }

  /** `tasklist.find(x => x.id === id)`, as the position of the first task carrying `id`. */
  function IndexOf(tasks: seq<Task>, id: int): (r: Option<nat>)
    ensures r.Some? ==> r.value < |tasks| && tasks[r.value].id == id
    ensures r.Some? ==> forall j :: 0 <= j < r.value ==> tasks[j].id != id
    ensures r.None? ==> forall j :: 0 <= j < |tasks| ==> tasks[j].id != id
  {
    if tasks == [] then None
    else if tasks[0].id == id then Some(0)
    else match IndexOf(tasks[1..], id)
      case None => None
      case Some(k) => Some(k + 1)
  }

  /** With distinct ids, `find` returns the one task that carries the id. */
  lemma IndexOfUnique(tasks: seq<Task>, k: nat)
    requires UniqueIds(tasks) && k < |tasks|
    ensures IndexOf(tasks, tasks[k].id) == Some(k)
  {
  }

  /** `tasklist.filter(x => x.id !== id)`. */
  function Without(tasks: seq<Task>, id: int): seq<Task>
  {
    if tasks == [] then []
    else (if tasks[0].id == id then [] else [tasks[0]]) + Without(tasks[1..], id)
  }

  /** The filtered list holds exactly the tasks whose id differs from `id`. */
  lemma {:induction false} WithoutMembers(tasks: seq<Task>, id: int)
    ensures forall t :: t in Without(tasks, id) <==> t in tasks && t.id != id
  {
    if tasks != [] {
      WithoutMembers(tasks[1..], id);
      assert tasks == [tasks[0]] + tasks[1..];
    }
  }

  /** Filtering out an id no task carries keeps the list as it is. */
  lemma {:induction false} WithoutAbsent(tasks: seq<Task>, id: int)
    requires forall j :: 0 <= j < |tasks| ==> tasks[j].id != id
    ensures Without(tasks, id) == tasks
  {
    if tasks != [] {
      WithoutAbsent(tasks[1..], id);
      assert [tasks[0]] + tasks[1..] == tasks;
    }
  }

  /**
    With distinct ids, filtering out the id of the task at `i` removes that
    one task and keeps every other task, in order.
   */
  lemma {:induction false} WithoutAt(tasks: seq<Task>, i: nat)
    requires UniqueIds(tasks) && i < |tasks|
    ensures Without(tasks, tasks[i].id) == tasks[..i] + tasks[i + 1..]
  {
    if i == 0 {
      TailAvoidsHead(tasks);
      WithoutAbsent(tasks[1..], tasks[0].id);
    } else {
      UniqueTail(tasks);
      WithoutAt(tasks[1..], i - 1);
      SpliceAfterHead(tasks, i);
    }
  }

  /** Unfolding one step of the filter when the head is kept, and re-joining the slices. */
  lemma SpliceAfterHead(tasks: seq<Task>, i: nat)
    requires 0 < i < |tasks| && tasks[0].id != tasks[i].id
    requires Without(tasks[1..], tasks[1..][i - 1].id) == tasks[1..][..i - 1] + tasks[1..][i..]
    ensures Without(tasks, tasks[i].id) == tasks[..i] + tasks[i + 1..]
  {
    var rest := tasks[1..];
    assert rest[i - 1] == tasks[i];
    assert [tasks[0]] + rest[..i - 1] == tasks[..i];
    assert rest[i..] == tasks[i + 1..];
  }

  lemma TailAvoidsHead(tasks: seq<Task>)
    requires UniqueIds(tasks) && tasks != []
    ensures forall j :: 0 <= j < |tasks[1..]| ==> tasks[1..][j].id != tasks[0].id
  {
    forall j | 0 <= j < |tasks[1..]| ensures tasks[1..][j].id != tasks[0].id {
      assert tasks[1..][j] == tasks[j + 1];
    }
  }

  lemma UniqueTail(tasks: seq<Task>)
    requires UniqueIds(tasks) && tasks != []
    ensures UniqueIds(tasks[1..])
  {
    var rest := tasks[1..];
    forall a, b | 0 <= a < b < |rest| ensures rest[a].id != rest[b].id {
      assert rest[a] == tasks[a + 1] && rest[b] == tasks[b + 1];
    }
  }

  /** Removing one task keeps the remaining ids distinct. */
  lemma RemoveAtKeepsUnique(tasks: seq<Task>, i: nat)
    requires UniqueIds(tasks) && i < |tasks|
    ensures UniqueIds(tasks[..i] + tasks[i + 1..])
  {
    var r := tasks[..i] + tasks[i + 1..];
    forall a, b | 0 <= a < b < |r| ensures r[a].id != r[b].id {
      var a' := if a < i then a else a + 1;
      var b' := if b < i then b else b + 1;
      assert r[a] == tasks[a'] && r[b] == tasks[b'];
    }
  }

  // ---------------------------------------------------------------- field updates

  /** Every task counts down exactly while it is in progress. */
  predicate CountdownIffInProgress(tasks: seq<Task>)
  {
    forall t :: t in tasks ==> (t.remainingTime.Some? <==> t.status == InProgress)
  }

  /**
    The record after `updateStatus` set its status (script.js:67-75):
    entering `in-progress` keeps a truthy countdown and otherwise starts it
    at 1500; any other status drops the countdown.
   */
  function WithStatus(t: Task, st: Status): Task
  {
    if st == InProgress then
      t.(status := st, remainingTime := if Truthy(t.remainingTime) then t.remainingTime else Some(DefaultCountdown))
    else
      t.(status := st, remainingTime := None)
  }

  /**
    `task.remainingTime > 0` (script.js:92): the tick decrements rather than
    expires. On a natural count, `> 0` and truthiness agree.
   */
  predicate TicksDown(t: Task)
  {
    Truthy(t.remainingTime)
  }

  /** The record after one firing of its interval (script.js:92-103). */
  function Ticked(t: Task): Task
  {
    if TicksDown(t) then t.(remainingTime := Some(t.remainingTime.value - 1))
    else t.(status := Done, remainingTime := None)
  }

  /** The record after `k` firings, the interval being stopped at expiry. */
  function Ticks(t: Task, k: nat): Task
    decreases k
  {
    if k == 0 then t
    else if TicksDown(t) then Ticks(Ticked(t), k - 1)
    else Ticked(t)
  }

  /**
    From a countdown of `n` seconds, `n` ticks bring it to 0 and leave the
    task in progress; tick `n + 1` marks it done and drops the countdown.
   */
  lemma {:induction false} CountdownTicks(t: Task, n: nat)
    requires t.status == InProgress && t.remainingTime == Some(n)
    ensures Ticks(t, n) == t.(remainingTime := Some(0))
    ensures Ticks(t, n + 1) == t.(status := Done, remainingTime := None)
    decreases n
  {
    if n > 0 {
      CountdownTicks(Ticked(t), n - 1);
    }
  }

  // ---------------------------------------------------------------- render partition

  /** The tasks shown in the column of `st`, in list order. */
  function Column(tasks: seq<Task>, st: Status): seq<Task>
  {
    if tasks == [] then []
    else (if tasks[0].status == st then [tasks[0]] else []) + Column(tasks[1..], st)
  }

  /** A column holds exactly the tasks of its status, and is no longer than the list. */
  lemma {:induction false} ColumnMembers(tasks: seq<Task>, st: Status)
    ensures |Column(tasks, st)| <= |tasks|
    ensures forall t :: t in Column(tasks, st) <==> t in tasks && t.status == st
  {
    if tasks != [] {
      ColumnMembers(tasks[1..], st);
      assert tasks == [tasks[0]] + tasks[1..];
    }
  }

  /** Each column keeps list order: it splits along any split of the list. */
  lemma {:induction false} ColumnOfConcat(a: seq<Task>, b: seq<Task>, st: Status)
    ensures Column(a + b, st) == Column(a, st) + Column(b, st)
  {
    if a != [] {
      ColumnOfConcat(a[1..], b, st);
      assert (a + b)[1..] == a[1..] + b;
    } else {
      assert a + b == b;
    }
  }

  /** The timer text of an in-progress card: `formatTime(task.remainingTime || 0)`. */
  function TimerLabel(t: Task): string
  {
    FormatTime(if t.remainingTime.Some? then t.remainingTime.value else 0)
  }

  datatype Card = Card(task: Task, timer: string)

  /** The two drop zones as `renderTasks` fills them (script.js:15-53). */
  datatype View = View(doNow: seq<Card>, taskList: seq<Task>)

  function Render(tasks: seq<Task>): View
  {
    if tasks == [] then View([], [])
    else
      var t, rest := tasks[0], Render(tasks[1..]);
      if t.status == InProgress then View([Card(t, TimerLabel(t))] + rest.doNow, rest.taskList)
      else if t.status == NotStarted then View(rest.doNow, [t] + rest.taskList)
      else rest
  }

  function CardTasks(cards: seq<Card>): seq<Task>
  {
    if cards == [] then [] else [cards[0].task] + CardTasks(cards[1..])
  }

  /**
    `renderTasks` puts the in-progress tasks, in list order and each with
    its countdown text, in Do Now, the not-started tasks in the task list,
    and draws done tasks nowhere.
   */
  lemma {:induction false} RenderPartitions(tasks: seq<Task>)
    ensures CardTasks(Render(tasks).doNow) == Column(tasks, InProgress)
    ensures Render(tasks).taskList == Column(tasks, NotStarted)
    ensures forall c :: c in Render(tasks).doNow ==> c.timer == TimerLabel(c.task)
    ensures |Render(tasks).doNow| + |Render(tasks).taskList| + |Column(tasks, Done)| == |tasks|
  {
    if tasks != [] {
      RenderPartitions(tasks[1..]);
      var rest := Render(tasks[1..]);
      if tasks[0].status == InProgress {
        var cards := [Card(tasks[0], TimerLabel(tasks[0]))] + rest.doNow;
        assert cards[1..] == rest.doNow;
      }
    }
  }
}
