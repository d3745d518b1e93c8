/** `getLoggedValue`: what a habit card shows as logged for a day. */
module HabitUtils {
  import opened Support
  import opened HabitModel

  /** The day's stored amount, or 0 when there is no habit or no entry for the
      day.  A stored value is returned as it is, negative ones included. */
  function GetLoggedValue(habit: Option<Habit>, day: DayKey): (v: int)
    ensures habit.None? ==> v == 0
    ensures habit.Some? && day !in habit.value.log ==> v == 0
    ensures habit.Some? && day in habit.value.log ==> v == habit.value.log[day]
  {
    match habit
    case None => 0
    case Some(h) => LoggedOn(h.log, day)
  }

  /** Reading a day after the server logged `amount` on it gives the previous
      reading plus `amount`. */
  lemma ReadAfterLog(h: Habit, day: DayKey, amount: int, now: Time)
    ensures GetLoggedValue(Some(LogEntry(h, day, amount, now)), day)
         == GetLoggedValue(Some(h), day) + amount
  {
  }

  /** Logging one day leaves the reading of every other day as it was. */
  lemma ReadOtherDayAfterLog(h: Habit, day: DayKey, other: DayKey, amount: int, now: Time)
    requires other != day
    ensures GetLoggedValue(Some(LogEntry(h, day, amount, now)), other)
         == GetLoggedValue(Some(h), other)
  {
  }

  /** A newly created habit reads 0 on every day. */
  lemma NewHabitReadsZero(id: Id, body: HabitBody, now: Time, day: DayKey)
    ensures GetLoggedValue(Some(NewHabit(id, body, now)), day) == 0
  {
  }
}
