/** The habit document: a title, optional category, daily target and unit,
    and a log from calendar-day keys to the amount logged that day. */
module HabitModel {
  import opened Support

  datatype Habit = Habit(
    id: Id,
    title: string,
    habitType: Option<string>,   // the schema's `type`
    target: Option<int>,
    unit: Option<string>,
    log: map<DayKey, int>,
    createdAt: Time,
    updatedAt: Time)

  /** The fields a request body may carry.  `log` is listed so that the
      routes can be seen to ignore it. */
  datatype HabitBody = HabitBody(
    title: Option<string>,
    habitType: Option<string>,
    target: Option<int>,
    unit: Option<string>,
    log: Option<map<DayKey, int>>)

  /** The schema's `required` check on a string: present and non-empty.
      It runs on every save of the document. */
  predicate ValidHabit(h: Habit) {
    |h.title| > 0
  }

  predicate HabitAccepted(body: HabitBody) {
    body.title.Some? && |body.title.value| > 0
  }

  /** A new document built from the four copied fields; the log starts empty
      and both timestamps are the time of the insert. */
  function NewHabit(id: Id, body: HabitBody, now: Time): (h: Habit)
    ensures h.log == map[]
    ensures h.title == body.title.GetOr("")
    ensures HabitAccepted(body) <==> ValidHabit(h)
    ensures h.id == id && h.createdAt == now && h.updatedAt == now
    ensures h.habitType == body.habitType && h.target == body.target && h.unit == body.unit
  {
    Habit(id, body.title.GetOr(""), body.habitType, body.target, body.unit, map[], now, now)
  }

  /** What the log holds for `day`: the stored amount, or 0 for a day never logged. */
  function LoggedOn(log: map<DayKey, int>, day: DayKey): (v: int)
    ensures day !in log ==> v == 0
    ensures day in log ==> v == log[day]
  {
    if day in log then log[day] else 0
  }

  /** Adds `amount` to the day's entry (0 when absent), with no clamping,
      and stamps the update time. */
  function LogEntry(h: Habit, day: DayKey, amount: int, now: Time): (h': Habit)
    ensures LoggedOn(h'.log, day) == LoggedOn(h.log, day) + amount
    ensures h'.log.Keys == h.log.Keys + {day}
    ensures forall d :: d in h.log && d != day ==> h'.log[d] == h.log[d]
    ensures h' == h.(log := h'.log, updatedAt := now)
  {
    h.(log := h.log[day := LoggedOn(h.log, day) + amount], updatedAt := now)
  }

  /** The field edit: each of title, type, target and unit present in the body
      overwrites the stored one; the log, id and creation time are untouched. */
  function EditHabit(h: Habit, body: HabitBody, now: Time): (h': Habit)
    ensures h'.id == h.id && h'.log == h.log && h'.createdAt == h.createdAt && h'.updatedAt == now
    ensures h'.title == body.title.GetOr(h.title)
    ensures h'.habitType == (if body.habitType.Some? then body.habitType else h.habitType)
    ensures h'.target == (if body.target.Some? then body.target else h.target)
    ensures h'.unit == (if body.unit.Some? then body.unit else h.unit)
  {
    Habit(h.id,
          body.title.GetOr(h.title),
          if body.habitType.Some? then body.habitType else h.habitType,
          if body.target.Some? then body.target else h.target,
          if body.unit.Some? then body.unit else h.unit,
          h.log, h.createdAt, now)
  }

  /** Logging -1 on a day that holds nothing stores -1: there is no floor at 0. */
  lemma NoClampAtZero(h: Habit, day: DayKey, now: Time)
    requires day !in h.log
    ensures LogEntry(h, day, -1, now).log[day] == -1
  {
  }

  /** Nothing ties the log to the target: any amount can be logged past it. */
  lemma OvershootAllowed(h: Habit, day: DayKey, now: Time)
    requires h.target.Some? && LoggedOn(h.log, day) == h.target.value
    ensures LoggedOn(LogEntry(h, day, 1, now).log, day) > h.target.value
    ensures ValidHabit(LogEntry(h, day, 1, now)) == ValidHabit(h)
  {
  }

  /** Logging `a` and then `b` on the same day is one log of `a + b`. */
  lemma {:induction false} LogEntryAdds(h: Habit, day: DayKey, a: int, b: int, t1: Time, t2: Time)
    ensures LogEntry(LogEntry(h, day, a, t1), day, b, t2) == LogEntry(h, day, a + b, t2)
  {
    var once := LogEntry(h, day, a, t1);
    var twice := LogEntry(once, day, b, t2);
    var direct := LogEntry(h, day, a + b, t2);
    assert twice.log == direct.log;
  }
}
