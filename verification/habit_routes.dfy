/** The habit routes over the habit collection: list, create, log progress
    for a day, edit fields, delete.  The collection is a map from id to
    document; ids are handed out in increasing order. */
module HabitRoutes {
  import opened Support
  import opened HabitModel

  class HabitStore {
    var habits: map<Id, Habit>
    var nextId: Id

    /** Every document sits under its own id, and every id was handed out. */
    ghost predicate Valid()
      reads this
    {
      forall id :: id in habits ==> id < nextId && habits[id].id == id
    }

    constructor ()
      ensures Valid() && habits == map[] && nextId == 0
    {
      habits := map[];
      nextId := 0;
    }

    /** GET `/`: every habit, in the order they were created. */
    method List() returns (res: Response<Habit>)
      requires Valid()
      ensures res.status == 200 && res.body.Docs?
      ensures res.body.docs == ValuesInIdOrder(habits, nextId)
      ensures forall h :: h in res.body.docs <==> h in habits.Values
    {
      var all := CollectInIdOrder(habits, nextId);
      res := Response(200, Docs(all));
    }

    /** POST `/`: copies title, type, target and unit from the body; answers
        201 with the saved habit, or 400 when the title is missing or empty. */
    method Create(body: HabitBody, now: Time) returns (res: Response<Habit>)
      requires Valid()
      modifies this
      ensures Valid()
      ensures HabitAccepted(body) ==>
                res == Response(201, Doc(NewHabit(old(nextId), body, now)))
                && habits == old(habits)[old(nextId) := NewHabit(old(nextId), body, now)]
                && nextId == old(nextId) + 1
      ensures !HabitAccepted(body) ==>
                res == Response(400, DriverError) && habits == old(habits) && nextId == old(nextId)
    {
      var habit := NewHabit(nextId, body, now);
      if !ValidHabit(habit) {
        return Response(400, DriverError);
      }
      habits := habits[nextId := habit];
      nextId := nextId + 1;
      res := Response(201, Doc(habit));
    }

    /** PATCH `/log/:id`: reads the day's entry (0 when absent), adds `amount`
        and saves.  An unknown id answers 404 "Habit not found"; a document
        that fails the schema's checks on save answers 400.  In both cases
        nothing changes. */
    method Log(id: Id, today: DayKey, amount: int, now: Time) returns (res: Response<Habit>)
      requires Valid()
      modifies this
      ensures Valid() && nextId == old(nextId)
      ensures id !in old(habits) ==>
                res == Response(404, Message("Habit not found")) && habits == old(habits)
      ensures id in old(habits) && !ValidHabit(old(habits)[id]) ==>
                res == Response(400, DriverError) && habits == old(habits)
      ensures id in old(habits) && ValidHabit(old(habits)[id]) ==>
                var logged := LogEntry(old(habits)[id], today, amount, now);
                res == Response(200, Doc(logged)) && habits == old(habits)[id := logged]
    {
      if id !in habits {
        return Response(404, Message("Habit not found"));
      }
      var habit := habits[id];
      var current := LoggedOn(habit.log, today);
      habit := habit.(log := habit.log[today := current + amount], updatedAt := now);
      if !ValidHabit(habit) {
        return Response(400, DriverError);
      }
      habits := habits[id := habit];
      res := Response(200, Doc(habit));
    }

    /** PATCH `/:id`: overwrites the title, type, target and unit present in
        the body and never the log.  An unknown id still answers 200, with a
        null body. */
    method Edit(id: Id, body: HabitBody, now: Time) returns (res: Response<Habit>)
      requires Valid()
      modifies this
      ensures Valid() && nextId == old(nextId)
      ensures id !in old(habits) ==> res == Response(200, NullDoc) && habits == old(habits)
      ensures id in old(habits) ==>
                res == Response(200, Doc(EditHabit(old(habits)[id], body, now)))
                && habits == old(habits)[id := EditHabit(old(habits)[id], body, now)]
      ensures id in old(habits) ==> habits[id].log == old(habits)[id].log
    {
      if id !in habits {
        return Response(200, NullDoc);
      }
      var edited := EditHabit(habits[id], body, now);
      habits := habits[id := edited];
      res := Response(200, Doc(edited));
    }

    /** DELETE `/:id`: answers 200 whether or not the id existed; afterwards
        no habit has that id and all the others are as they were. */
    method Delete(id: Id) returns (res: Response<Habit>)
      requires Valid()
      modifies this
      ensures Valid() && nextId == old(nextId)
      ensures res == Response(200, Message("Habit deleted"))
      ensures habits == old(habits) - {id}
    {
      habits := habits - {id};
      res := Response(200, Message("Habit deleted"));
    }
  }

  /** The end-to-end run: create a habit, log 1 three times on the same day,
      and the day's entry reads 3. */
  method ThreeLogsReadThree(today: DayKey, t0: Time, t1: Time, t2: Time, t3: Time)
    returns (count: int)
    ensures count == 3
  {
    var store := new HabitStore();
    var water := HabitBody(Some("Water"), None, Some(8), Some("cups"), None);
    var created := store.Create(water, t0);
    var id := created.body.doc.id;
    var r1 := store.Log(id, today, 1, t1);
    var r2 := store.Log(id, today, 1, t2);
    var r3 := store.Log(id, today, 1, t3);
    count := LoggedOn(store.habits[id].log, today);
  }
}
