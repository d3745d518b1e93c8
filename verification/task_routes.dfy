/** The task routes over the task collection: list by due date, create,
    merge-update, list the completed ones, delete. */
module TaskRoutes {
  import opened Support
  import opened Sorting
  import opened TaskModel

  /** `find().sort({ dueDate: 1 })`: tasks without a due date first (a missing
      value sorts lowest), then the others by ascending due date. */
  function Listing(ts: seq<Task>): (r: seq<Task>)
    ensures multiset(r) == multiset(ts)
    ensures forall i, j :: 0 <= i < j < |r| && HasDueDate(r[i]) ==> HasDueDate(r[j])
    ensures forall i, j :: 0 <= i < j < |r| && HasDueDate(r[i]) && HasDueDate(r[j])
              ==> r[i].dueDate.value <= r[j].dueDate.value
  {
    var undated := Reject(ts, HasDueDate);
    var dated := SortBy(Filter(ts, HasDueDate), DueKey);
    FilterRejectPartition(ts, HasDueDate);
    SortedKeepsDueDates(Filter(ts, HasDueDate));
    UndatedThenDated(undated, dated);
    undated + dated
  }

  lemma SortedKeepsDueDates(dated: seq<Task>)
    requires forall t :: t in dated ==> HasDueDate(t)
    ensures forall t :: t in SortBy(dated, DueKey) ==> HasDueDate(t)
  {
    var r := SortBy(dated, DueKey);
    forall t | t in r ensures HasDueDate(t) {
      assert t in multiset(r);
    }
  }

  /** Undated tasks followed by dated ones sorted by due date are in listing order. */
  lemma UndatedThenDated(undated: seq<Task>, dated: seq<Task>)
    requires forall t :: t in undated ==> !HasDueDate(t)
    requires forall t :: t in dated ==> HasDueDate(t)
    requires SortedBy(dated, DueKey)
    ensures forall i, j :: 0 <= i < j < |undated + dated| && HasDueDate((undated + dated)[i])
              ==> HasDueDate((undated + dated)[j])
    ensures forall i, j :: 0 <= i < j < |undated + dated|
              && HasDueDate((undated + dated)[i]) && HasDueDate((undated + dated)[j])
              ==> (undated + dated)[i].dueDate.value <= (undated + dated)[j].dueDate.value
  {
    var r := undated + dated;
    forall i | 0 <= i < |r| ensures HasDueDate(r[i]) <==> i >= |undated| {
      if i < |undated| { assert r[i] == undated[i]; } else { assert r[i] == dated[i - |undated|]; }
    }
    forall i, j | 0 <= i < j < |r| && HasDueDate(r[i]) && HasDueDate(r[j])
      ensures r[i].dueDate.value <= r[j].dueDate.value
    {
      assert r[i] == dated[i - |undated|] && r[j] == dated[j - |undated|];
      assert DueKey(r[i]) <= DueKey(r[j]);
    }
  }

  /** `find({ completed: true }).sort({ updatedAt: -1 })`: exactly the completed
      tasks, most recently updated first. */
  function CompletedListing(ts: seq<Task>): (r: seq<Task>)
    ensures multiset(r) == multiset(Filter(ts, IsCompleted))
    ensures forall t :: t in r <==> t in ts && t.completed
    ensures forall i, j :: 0 <= i < j < |r| ==> r[i].updatedAt >= r[j].updatedAt
  {
    var r := SortBy(Filter(ts, IsCompleted), RecentFirstKey);
    assert forall t :: t in r <==> t in Filter(ts, IsCompleted) by {
      forall t ensures t in r <==> t in Filter(ts, IsCompleted) {
        assert t in r <==> t in multiset(r);
      }
    }
    r
  }

  class TaskStore {
    var tasks: map<Id, Task>
    var nextId: Id

    /** Every document sits under its own id, and every id was handed out. */
    ghost predicate Valid()
      reads this
    {
      forall id :: id in tasks ==> id < nextId && tasks[id].id == id
    }

    constructor ()
      ensures Valid() && tasks == map[] && nextId == 0
    {
      tasks := map[];
      nextId := 0;
    }

    /** GET `/`: every task, in ascending due-date order. */
    method List() returns (res: Response<Task>)
      requires Valid()
      ensures res.status == 200 && res.body.Docs?
      ensures res.body.docs == Listing(ValuesInIdOrder(tasks, nextId))
      ensures forall t :: t in res.body.docs <==> t in tasks.Values
    {
      var all := CollectInIdOrder(tasks, nextId);
      var sorted := Listing(all);
      assert forall t :: t in sorted <==> t in all by {
        forall t ensures t in sorted <==> t in all {
          assert t in sorted <==> t in multiset(sorted);
        }
      }
      res := Response(200, Docs(sorted));
    }

    /** POST `/`: copies title, description, dueDate, reminder, tags and
        priority; answers 201 with the saved task, or 400 when the schema's
        checks fail. */
    method Create(body: TaskBody, now: Time) returns (res: Response<Task>)
      requires Valid()
      modifies this
      ensures Valid()
      ensures TaskAccepted(body) ==>
                res == Response(201, Doc(NewTask(old(nextId), body, now)))
                && tasks == old(tasks)[old(nextId) := NewTask(old(nextId), body, now)]
                && nextId == old(nextId) + 1
      ensures !TaskAccepted(body) ==>
                res == Response(400, DriverError) && tasks == old(tasks) && nextId == old(nextId)
    {
      if !TaskAccepted(body) {
        return Response(400, DriverError);
      }
      var task := NewTask(nextId, body, now);
      tasks := tasks[nextId := task];
      nextId := nextId + 1;
      res := Response(201, Doc(task));
    }

    /** PATCH `/:id`: merges the body into the stored task; an unknown id
        answers 404 "Task not found" and changes nothing. */
    method Patch(id: Id, body: TaskBody, now: Time) returns (res: Response<Task>)
      requires Valid()
      modifies this
      ensures Valid() && nextId == old(nextId)
      ensures id !in old(tasks) ==>
                res == Response(404, Message("Task not found")) && tasks == old(tasks)
      ensures id in old(tasks) ==>
                res == Response(200, Doc(PatchTask(old(tasks)[id], body, now)))
                && tasks == old(tasks)[id := PatchTask(old(tasks)[id], body, now)]
    {
      if id !in tasks {
        return Response(404, Message("Task not found"));
      }
      var updated := PatchTask(tasks[id], body, now);
      tasks := tasks[id := updated];
      res := Response(200, Doc(updated));
    }

    /** GET `/completed`: exactly the completed tasks, most recently updated first. */
    method Completed() returns (res: Response<Task>)
      requires Valid()
      ensures res.status == 200 && res.body.Docs?
      ensures res.body.docs == CompletedListing(ValuesInIdOrder(tasks, nextId))
      ensures forall t :: t in res.body.docs <==> t in tasks.Values && t.completed
    {
      var all := CollectInIdOrder(tasks, nextId);
      res := Response(200, Docs(CompletedListing(all)));
    }

    /** DELETE `/:id`: answers 200 whether or not the id existed; afterwards no
        task has that id and all the others are as they were. */
    method Delete(id: Id) returns (res: Response<Task>)
      requires Valid()
      modifies this
      ensures Valid() && nextId == old(nextId)
      ensures res == Response(200, Message("Task deleted"))
      ensures tasks == old(tasks) - {id}
    {
      tasks := tasks - {id};
      res := Response(200, Message("Task deleted"));
    }
  }

  /** The end-to-end run on a fresh store: a new task is not in the completed
      listing until it is patched with `completed: true`. */
  method CompleteTaskScenario(now: Time, later: Time) returns (before: seq<Task>, after: seq<Task>)
    ensures before == []
    ensures |after| == 1 && after[0].title == "X" && after[0].completed
  {
    var store := new TaskStore();
    var created := store.Create(TaskBody(Some("X"), None, None, None, None, Some("High"), None), now);
    var id := created.body.doc.id;
    var first := store.Completed();
    before := first.body.docs;
    assert ValuesInIdOrder(store.tasks, 1) == [store.tasks[0]];
    assert Filter([store.tasks[0]], IsCompleted) == [];
    assert |before| == 0 by {
      assert multiset(before) == multiset(Filter([store.tasks[0]], IsCompleted));
    }
    var patched := store.Patch(id, NoFields.(completed := Some(true)), later);
    var second := store.Completed();
    after := second.body.docs;
    assert ValuesInIdOrder(store.tasks, 1) == [store.tasks[0]];
    assert store.tasks[0] in after;
    assert |after| == 1 by {
      assert multiset(after) == multiset(Filter([store.tasks[0]], IsCompleted));
    }
  }
}
