/** The mood routes: list the entries newest first, and add one.  Entries are
    never changed or removed. */
module MoodRoutes {
  import opened Support
  import opened Sorting
  import opened MoodModel

  /** `find().sort({ date: -1 })`: every entry, newest first. */
  function MoodListing(entries: seq<Mood>): (r: seq<Mood>)
    ensures multiset(r) == multiset(entries)
    ensures forall i, j :: 0 <= i < j < |r| ==> r[i].date >= r[j].date
  {
    SortBy(entries, NewestFirstKey)
  }

  class MoodStore {
    var entries: seq<Mood>

    /** The entries are kept in the order they were saved, each under its position. */
    ghost predicate Valid()
      reads this
    {
      forall i :: 0 <= i < |entries| ==> entries[i].id == i
    }

    constructor ()
      ensures Valid() && entries == []
    {
      entries := [];
    }

    /** GET `/`: every entry, newest first. */
    method List() returns (res: Response<Mood>)
      requires Valid()
      ensures res == Response(200, Docs(MoodListing(entries)))
    {
      res := Response(200, Docs(MoodListing(entries)));
    }

    /** POST `/`: saves the mood and the note with the current time and
        answers 201, or answers 400 when the mood is missing or empty.  What
        was stored before is never touched. */
    method Create(body: MoodBody, now: Time) returns (res: Response<Mood>)
      requires Valid()
      modifies this
      ensures Valid()
      ensures old(entries) <= entries
      ensures MoodAccepted(body) ==>
                res == Response(201, Doc(NewMood(|old(entries)|, body, now)))
                && entries == old(entries) + [NewMood(|old(entries)|, body, now)]
      ensures !MoodAccepted(body) ==> res == Response(400, DriverError) && entries == old(entries)
    {
      if !MoodAccepted(body) {
        return Response(400, DriverError);
      }
      var entry := NewMood(|entries|, body, now);
      entries := entries + [entry];
      res := Response(201, Doc(entry));
    }
  }

  /** Two entries saved one after the other come back newest first. */
  method NewestFirstScenario(t1: Time, t2: Time) returns (listed: seq<Mood>)
    requires t1 < t2
    ensures |listed| == 2 && listed[0].date == t2 && listed[1].date == t1
  {
    var store := new MoodStore();
    var happy := MoodBody(Some("\U{1F60A}"), None, None);
    var sleepy := MoodBody(Some("\U{1F634}"), Some("late"), None);
    assert MoodAccepted(happy) && MoodAccepted(sleepy);
    var a := NewMood(0, happy, t1);
    var b := NewMood(1, sleepy, t2);
    var first := store.Create(happy, t1);
    assert store.entries == [a];
    var second := store.Create(sleepy, t2);
    assert store.entries == [a, b];
    var res := store.List();
    listed := res.body.docs;
    assert [a, b][1..] == [b];
    assert SortBy([b], NewestFirstKey) == [b];
    assert listed == [b, a];
  }
}
