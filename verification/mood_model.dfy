/** The mood entry: an emoji, an optional note and the time it was saved. */
module MoodModel {
  import opened Support

  datatype Mood = Mood(id: Id, mood: string, note: Option<string>, date: Time)

  /** The fields a request body may carry.  `date` is listed so that creation
      can be seen to ignore it. */
  datatype MoodBody = MoodBody(mood: Option<string>, note: Option<string>, date: Option<Time>)

  /** The schema's `required` check on `mood`: present and non-empty. */
  predicate MoodAccepted(body: MoodBody) {
    body.mood.Some? && |body.mood.value| > 0
  }

  /** A new entry from the mood and the note; its date is always the time of
      the save, whatever the body says. */
  function NewMood(id: Id, body: MoodBody, now: Time): (m: Mood)
    ensures m.id == id && m.date == now && m.note == body.note
    ensures MoodAccepted(body) ==> Some(m.mood) == body.mood && |m.mood| > 0
  {
    Mood(id, body.mood.GetOr(""), body.note, now)
  }

  /** Sort key for "newest first". */
  function NewestFirstKey(m: Mood): int { -m.date }
}
