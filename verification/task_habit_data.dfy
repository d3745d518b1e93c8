/** The client's data hook: which fetched tasks it keeps, how it updates its
    two lists after a delete, a mark-done or a habit log, and which
    parameters it passes to the edit screen. */
module TaskHabitData {
  import opened Support
  import opened Text
  import opened TaskModel
  import opened TaskRoutes
  import opened HabitModel
  import opened HabitUtils

  /** The task list keeps the fetched tasks that are not completed, in the
      order they came. */
  function FetchedTasks(data: seq<Task>): (r: seq<Task>)
    ensures forall t :: t in r <==> t in data && !t.completed
    ensures Subsequence(r, data)
  {
    Reject(data, IsCompleted)
  }

  /** The open tasks the home screen keeps and the completed listing together
      hold every task exactly once. */
  lemma OpenAndCompletedPartition(ts: seq<Task>)
    ensures multiset(FetchedTasks(Listing(ts))) + multiset(CompletedListing(ts)) == multiset(ts)
  {
    var open := FetchedTasks(Listing(ts));
    var done := CompletedListing(ts);
    forall x ensures (multiset(open) + multiset(done))[x] == multiset(ts)[x] {
      RejectCount(Listing(ts), IsCompleted, x);
      FilterCount(ts, IsCompleted, x);
    }
  }

  /** The kind handleDelete and handleEdit assume when none is given. */
  const DefaultKind: string := "task"

  /** "habit" and "habits" delete a habit; every other kind deletes a task. */
  function DeleteRoute(kind: string): (route: string)
    ensures route == "habits" <==> kind == "habit" || kind == "habits"
    ensures route != "habits" ==> route == "tasks"
  {
    if kind == "habit" || kind == "habits" then "habits" else "tasks"
  }

  /** Without a kind, handleDelete deletes a task and asks about a "task". */
  lemma DefaultKindDeletesTask()
    ensures DeleteRoute(DefaultKind) == "tasks" && ConfirmNoun(DefaultKind) == "task"
  {
  }

  /** The noun of the confirmation prompt, `route.slice(0, -1)`: the route
      without its final "s". */
  function ConfirmNoun(kind: string): (noun: string)
    ensures noun + "s" == DeleteRoute(kind)
  {
    var route := DeleteRoute(kind);
    route[..|route| - 1]
  }

  /** What the hook holds. */
  datatype ClientLists = ClientLists(tasks: seq<Task>, habits: seq<Habit>)

  /** How a request's `fetch` settled: it resolves whatever the status is,
      and rejects only when no reply arrives. */
  datatype Settled = Resolved | Rejected

  /** The requests the hook sends. */
  datatype Request =
    | DeleteDoc(route: string, id: Id)
    | PatchTaskDoc(id: Id, body: TaskBody)
    | PatchHabitLog(id: Id, amount: int)

  function TaskId(t: Task): Id { t.id }

  function HabitId(h: Habit): Id { h.id }

  /** The test of `list.filter(x => x._id !== id)`. */
  function NotId<T>(idOf: T -> Id, id: Id): T -> bool {
    x => idOf(x) != id
  }

  /** `list.filter(x => x._id !== id)`. */
  function DropId<T>(s: seq<T>, idOf: T -> Id, id: Id): (r: seq<T>)
    ensures forall x :: x in r ==> x in s && idOf(x) != id
    ensures forall x :: x in s && idOf(x) != id ==> x in r
    ensures Subsequence(r, s)
    ensures (forall x :: x in s ==> idOf(x) != id) ==> r == s
  {
    assert (forall x :: x in s ==> idOf(x) != id) ==> Filter(s, NotId(idOf, id)) == s by {
      if forall x :: x in s ==> idOf(x) != id { FilterKeepsAll(s, NotId(idOf, id)); }
    }
    Filter(s, NotId(idOf, id))
  }

  /** The open tasks of a listing hold each open task as often as the
      collection does. */
  lemma OpenCount(ts: seq<Task>, x: Task)
    ensures multiset(FetchedTasks(Listing(ts)))[x] == if x.completed then 0 else multiset(ts)[x]
  {
    RejectCount(Listing(ts), IsCompleted, x);
  }

  /** The request handleDelete sends: none unless the user confirms. */
  function DeleteRequest(id: Id, kind: string, confirmed: bool): (req: Option<Request>)
    ensures req.Some? <==> confirmed
    ensures confirmed ==> req.value == DeleteDoc(DeleteRoute(kind), id)
  {
    if confirmed then Some(DeleteDoc(DeleteRoute(kind), id)) else None
  }

  /** The lists after handleDelete: without confirmation, or when the request
      fails to reach the server, nothing changes; once the request resolves,
      whatever its status, the item leaves the list of its route and the other
      list stays as it was. */
  function AfterDelete(lists: ClientLists, id: Id, kind: string, confirmed: bool, settled: Settled)
    : (r: ClientLists)
    ensures !confirmed || settled == Rejected ==> r == lists
    ensures confirmed && settled == Resolved && DeleteRoute(kind) == "tasks" ==>
              r.habits == lists.habits && r.tasks == DropId(lists.tasks, TaskId, id)
              && (forall t :: t in r.tasks <==> t in lists.tasks && t.id != id)
    ensures confirmed && settled == Resolved && DeleteRoute(kind) == "habits" ==>
              r.tasks == lists.tasks && r.habits == DropId(lists.habits, HabitId, id)
              && (forall h :: h in r.habits <==> h in lists.habits && h.id != id)
  {
    if !confirmed || settled == Rejected then lists
    else if DeleteRoute(kind) == "tasks" then lists.(tasks := DropId(lists.tasks, TaskId, id))
    else lists.(habits := DropId(lists.habits, HabitId, id))
  }

  /** The open tasks the client shows after dropping a deleted task are the
      open tasks a fresh fetch would return once the server removed it. */
  lemma DeleteMatchesServer(m: map<Id, Task>, n: nat, id: Id)
    requires Keyed(m, TaskId, n)
    ensures multiset(DropId(FetchedTasks(Listing(ValuesInIdOrder(m, n))), TaskId, id))
         == multiset(FetchedTasks(Listing(ValuesInIdOrder(m - {id}, n))))
  {
    var shown := FetchedTasks(Listing(ValuesInIdOrder(m, n)));
    var refetched := FetchedTasks(Listing(ValuesInIdOrder(m - {id}, n)));
    forall x ensures multiset(DropId(shown, TaskId, id))[x] == multiset(refetched)[x] {
      DeleteCount(m, n, id, x);
    }
  }

  lemma DeleteCount(m: map<Id, Task>, n: nat, id: Id, x: Task)
    requires Keyed(m, TaskId, n)
    ensures multiset(DropId(FetchedTasks(Listing(ValuesInIdOrder(m, n))), TaskId, id))[x]
         == multiset(FetchedTasks(Listing(ValuesInIdOrder(m - {id}, n))))[x]
  {
    var before := ValuesInIdOrder(m, n);
    DropCount(FetchedTasks(Listing(before)), TaskId, id, x);
    OpenCount(before, x);
    OpenCount(ValuesInIdOrder(m - {id}, n), x);
    RemovedCount(m, n, id, x);
  }

  /** How often `x` survives `DropId`. */
  lemma DropCount<T>(s: seq<T>, idOf: T -> Id, id: Id, x: T)
    ensures multiset(DropId(s, idOf, id))[x] == if idOf(x) != id then multiset(s)[x] else 0
  {
    FilterCount(s, NotId(idOf, id), x);
  }

  /** Removing an id from a keyed collection removes exactly the task stored
      under it from the scan. */
  lemma RemovedCount(m: map<Id, Task>, n: nat, id: Id, x: Task)
    requires Keyed(m, TaskId, n)
    ensures multiset(ValuesInIdOrder(m - {id}, n))[x]
         == if x.id == id then 0 else multiset(ValuesInIdOrder(m, n))[x]
  {
    var m' := m - {id};
    assert Keyed(m', TaskId, n);
    ValuesCount(m, TaskId, n, n, x);
    ValuesCount(m', TaskId, n, n, x);
  }

  /** The body handleMarkDone sends. */
  const MarkDoneBody: TaskBody := NoFields.(completed := Some(true))

  /** A mark-done merge only sets the flag and the update time. */
  lemma MarkDoneCompletes(t: Task, now: Time)
    ensures PatchTask(t, MarkDoneBody, now) == t.(completed := true, updatedAt := now)
  {
  }

  /** The request handleMarkDone sends. */
  function MarkDoneRequest(id: Id): (req: Request)
    ensures req.PatchTaskDoc? && req.id == id
    ensures req.PatchTaskDoc? ==> req.body.completed == Some(true)
  {
    PatchTaskDoc(id, MarkDoneBody)
  }

  /** The lists after handleMarkDone: once the request resolves, whatever its
      status, the task leaves the task list; habits never change. */
  function AfterMarkDone(lists: ClientLists, id: Id, settled: Settled): (r: ClientLists)
    ensures r.habits == lists.habits
    ensures settled == Rejected ==> r == lists
    ensures settled == Resolved ==> r.tasks == DropId(lists.tasks, TaskId, id)
    ensures settled == Resolved ==> forall t :: t in r.tasks <==> t in lists.tasks && t.id != id
  {
    if settled == Rejected then lists else lists.(tasks := DropId(lists.tasks, TaskId, id))
  }

  /** The open tasks the client shows after a mark-done are the open tasks a
      fresh fetch would return once the server merged `completed: true`. */
  lemma MarkDoneMatchesServer(m: map<Id, Task>, n: nat, id: Id, now: Time)
    requires Keyed(m, TaskId, n) && id in m
    ensures multiset(AfterMarkDone(ClientLists(FetchedTasks(Listing(ValuesInIdOrder(m, n))), []), id, Resolved).tasks)
         == multiset(FetchedTasks(Listing(ValuesInIdOrder(m[id := PatchTask(m[id], MarkDoneBody, now)], n))))
  {
    var shown := FetchedTasks(Listing(ValuesInIdOrder(m, n)));
    var after := ValuesInIdOrder(m[id := PatchTask(m[id], MarkDoneBody, now)], n);
    forall x ensures multiset(DropId(shown, TaskId, id))[x] == multiset(FetchedTasks(Listing(after)))[x] {
      MarkDoneCount(m, n, id, now, x);
    }
  }

  lemma MarkDoneCount(m: map<Id, Task>, n: nat, id: Id, now: Time, x: Task)
    requires Keyed(m, TaskId, n) && id in m
    ensures multiset(DropId(FetchedTasks(Listing(ValuesInIdOrder(m, n))), TaskId, id))[x]
         == multiset(FetchedTasks(Listing(ValuesInIdOrder(m[id := PatchTask(m[id], MarkDoneBody, now)], n))))[x]
  {
    var done := PatchTask(m[id], MarkDoneBody, now);
    var m' := m[id := done];
    var before := ValuesInIdOrder(m, n);
    MarkDoneCompletes(m[id], now);
    assert Keyed(m', TaskId, n);
    DropCount(FetchedTasks(Listing(before)), TaskId, id, x);
    OpenCount(before, x);
    OpenCount(ValuesInIdOrder(m', n), x);
    ValuesCount(m, TaskId, n, n, x);
    ValuesCount(m', TaskId, n, n, x);
  }

  /** `list.map(x => x._id === id ? v : x)`. */
  function ReplaceId<T>(s: seq<T>, idOf: T -> Id, id: Id, v: T): (r: seq<T>)
    ensures |r| == |s|
    ensures forall i :: 0 <= i < |s| && idOf(s[i]) == id ==> r[i] == v
    ensures forall i :: 0 <= i < |s| && idOf(s[i]) != id ==> r[i] == s[i]
  {
    if s == [] then []
    else [if idOf(s[0]) == id then v else s[0]] + ReplaceId(s[1..], idOf, id, v)
  }

  /** The request updateHabit sends. */
  function LogRequest(id: Id, delta: int): Request {
    PatchHabitLog(id, delta)
  }

  /** The lists after updateHabit: the server's reply takes the place of every
      habit with the id; without a reply nothing changes. */
  function AfterUpdateHabit(lists: ClientLists, id: Id, reply: Option<Habit>): (r: ClientLists)
    ensures r.tasks == lists.tasks
    ensures |r.habits| == |lists.habits|
    ensures reply.None? ==> r == lists
    ensures reply.Some? ==> forall i :: 0 <= i < |r.habits| ==>
              r.habits[i] == (if lists.habits[i].id == id then reply.value else lists.habits[i])
  {
    match reply
    case None => lists
    case Some(h) => lists.(habits := ReplaceId(lists.habits, HabitId, id, h))
  }

  /** After the server applies updateHabit's request to `h` for a day and its
      reply replaces the habit, the card reads the server's previous value
      plus `delta`; the other habits read as before. */
  lemma UpdateHabitShowsLog(lists: ClientLists, h: Habit, day: DayKey, delta: int, now: Time, i: nat)
    requires i < |lists.habits|
    ensures var req := LogRequest(h.id, delta);
            var r := AfterUpdateHabit(lists, req.id, Some(LogEntry(h, day, req.amount, now)));
            GetLoggedValue(Some(r.habits[i]), day)
            == if lists.habits[i].id == h.id then GetLoggedValue(Some(h), day) + delta
               else GetLoggedValue(Some(lists.habits[i]), day)
  {
    ReadAfterLog(h, day, delta, now);
  }

  /** An item handed to handleEdit. */
  datatype Item = TaskItem(task: Task) | HabitItem(habit: Habit)

  /** The route parameters of the edit screen; every one of them is text
      except the two dates, which are passed through. */
  datatype EditParams = EditParams(
    mode: string,
    kind: string,
    id: Id,
    title: string,
    description: string,
    dueDate: Option<Time>,
    reminder: Option<Time>,
    tags: string,
    priority: string,
    target: string,
    unit: string,
    habitType: string)

  /** handleEdit's parameters: missing or empty fields become "", tags are
      joined with commas, priority falls back to Medium, and the target is
      written in decimal. */
  function HandleEdit(item: Item, kind: string): (p: EditParams)
    ensures p.mode == "edit" && p.kind == kind
    ensures p.priority != ""
    ensures item.TaskItem? ==>
              && p.id == item.task.id && p.title == item.task.title
              && p.description == item.task.description.GetOr("")
              && p.dueDate == item.task.dueDate && p.reminder == item.task.reminder
              && p.tags == Join(item.task.tags, ',')
              && (item.task.priority != "" ==> p.priority == item.task.priority)
              && (item.task.priority == "" ==> p.priority == DefaultPriority)
              && p.target == "" && p.unit == "" && p.habitType == ""
    ensures item.HabitItem? ==>
              && p.id == item.habit.id && p.title == item.habit.title
              && p.description == "" && p.dueDate.None? && p.reminder.None?
              && p.tags == "" && p.priority == DefaultPriority
              && ParseInt(p.target) == item.habit.target
              && p.unit == item.habit.unit.GetOr("") && p.habitType == item.habit.habitType.GetOr("")
  {
    match item
    case TaskItem(t) =>
      EditParams("edit", kind, t.id, t.title, t.description.GetOr(""), t.dueDate, t.reminder,
                 Join(t.tags, ','), if t.priority == "" then DefaultPriority else t.priority, "", "", "")
    case HabitItem(h) =>
      var target := match h.target case Some(n) => IntToDecimal(n) case None => "";
      assert ParseInt(target) == h.target by {
        if h.target.Some? { ParseIntDecimal(h.target.value); }
      }
      EditParams("edit", kind, h.id, h.title, "", None, None, "", DefaultPriority, target,
                 h.unit.GetOr(""), h.habitType.GetOr(""))
  }
}
