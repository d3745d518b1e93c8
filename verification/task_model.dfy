/** The task document: title, optional description, due date and reminder,
    tags, a priority and a completion flag. */
module TaskModel {
  import opened Support

  datatype Task = Task(
    id: Id,
    title: string,
    description: Option<string>,
    dueDate: Option<Time>,
    completed: bool,
    reminder: Option<Time>,
    tags: seq<string>,
    priority: string,
    createdAt: Time,
    updatedAt: Time)

  /** The fields a request body may carry.  `completed` is listed so that
      creation can be seen to ignore it. */
  datatype TaskBody = TaskBody(
    title: Option<string>,
    description: Option<string>,
    dueDate: Option<Time>,
    reminder: Option<Time>,
    tags: Option<seq<string>>,
    priority: Option<string>,
    completed: Option<bool>)

  /** The values the schema's enum allows for `priority`. */
  const Priorities: seq<string> := ["Low", "Medium", "High"]

  const DefaultPriority: string := "Medium"

  /** The schema's checks on insert: `title` present and non-empty, and
      `priority`, when given, one of the enum values. */
  predicate TaskAccepted(body: TaskBody) {
    && body.title.Some? && |body.title.value| > 0
    && (body.priority.None? || body.priority.value in Priorities)
  }

  /** A new document from the six copied fields; `completed` is false whatever
      the body says, tags default to none and priority to Medium. */
  function NewTask(id: Id, body: TaskBody, now: Time): (t: Task)
    ensures !t.completed
    ensures t.title == body.title.GetOr("")
    ensures t.id == id && t.createdAt == now && t.updatedAt == now
    ensures t.tags == body.tags.GetOr([]) && t.priority == body.priority.GetOr(DefaultPriority)
    ensures t.description == body.description && t.dueDate == body.dueDate && t.reminder == body.reminder
    ensures TaskAccepted(body) ==> |t.title| > 0 && t.priority in Priorities
  {
    Task(id, body.title.GetOr(""), body.description, body.dueDate, false, body.reminder,
         body.tags.GetOr([]), body.priority.GetOr(DefaultPriority), now, now)
  }

  /** The `$set` merge: every field present in the body overwrites the stored
      one, every other field keeps its value, and the update time is stamped.
      The enum is not checked on update. */
  function PatchTask(t: Task, body: TaskBody, now: Time): (t': Task)
    ensures t'.id == t.id && t'.createdAt == t.createdAt && t'.updatedAt == now
    ensures t'.title == body.title.GetOr(t.title)
    ensures t'.description == (if body.description.Some? then body.description else t.description)
    ensures t'.dueDate == (if body.dueDate.Some? then body.dueDate else t.dueDate)
    ensures t'.reminder == (if body.reminder.Some? then body.reminder else t.reminder)
    ensures t'.tags == body.tags.GetOr(t.tags)
    ensures t'.priority == body.priority.GetOr(t.priority)
    ensures t'.completed == body.completed.GetOr(t.completed)
  {
    Task(t.id,
         body.title.GetOr(t.title),
         if body.description.Some? then body.description else t.description,
         if body.dueDate.Some? then body.dueDate else t.dueDate,
         body.completed.GetOr(t.completed),
         if body.reminder.Some? then body.reminder else t.reminder,
         body.tags.GetOr(t.tags),
         body.priority.GetOr(t.priority),
         t.createdAt, now)
  }

  /** A body with no field at all. */
  const NoFields: TaskBody := TaskBody(None, None, None, None, None, None, None)

  /** A merge of an empty body changes nothing but the update time. */
  lemma PatchNothing(t: Task, now: Time)
    ensures PatchTask(t, NoFields, now) == t.(updatedAt := now)
  {
  }

  predicate IsCompleted(t: Task) { t.completed }

  predicate HasDueDate(t: Task) { t.dueDate.Some? }

  /** The due date as a sort key; only used on tasks that have one. */
  function DueKey(t: Task): int { t.dueDate.GetOr(0) }

  /** Sort key for "most recently updated first". */
  function RecentFirstKey(t: Task): int { -t.updatedAt }
}
