/** The create screen: the form's state, the payload and URL its submit
    sends, and when the submit button is enabled. */
module CreateEntry {
  import opened Support
  import opened Text
  import opened TaskModel
  import opened HabitModel
  import opened TaskHabitData

  const TaskKind: string := "task"
  const HabitKind: string := "habit"

  /** The values the form holds; the pickers supply the two dates. */
  datatype Form = Form(
    kind: string,
    title: string,
    dueDate: Time,
    reminder: Option<Time>,
    tags: string,
    priority: string,
    habitTarget: string,
    habitUnit: string,
    habitType: string)

  /** The form as the screen opens: a task, no title, due now, no reminder,
      no tags, Medium priority and empty habit fields. */
  function InitialForm(now: Time): (f: Form)
    ensures f.kind == TaskKind && f.priority == DefaultPriority && f.dueDate == now
    ensures f.title == "" && f.tags == "" && f.reminder.None?
    ensures f.habitTarget == "" && f.habitUnit == "" && f.habitType == ""
  {
    Form(TaskKind, "", now, None, "", DefaultPriority, "", "", "")
  }

  /** The priority buttons, in the order they are drawn. */
  const PriorityButtons: seq<string> := ["Low", "Medium", "High"]

  /** Every button sets a value the schema's enum accepts, and the initial
      priority is one of them. */
  lemma ButtonsWithinEnum()
    ensures forall p :: p in PriorityButtons ==> p in Priorities
    ensures DefaultPriority in PriorityButtons
  {
  }

  /** `pieces.map(t => t.trim())`. */
  function TrimAll(pieces: seq<string>): (r: seq<string>)
    ensures |r| == |pieces|
    ensures forall i :: 0 <= i < |r| ==> r[i] == Trim(pieces[i])
    ensures forall t :: t in r ==> Trimmed(t)
  {
    if pieces == [] then [] else [Trim(pieces[0])] + TrimAll(pieces[1..])
  }

  /** Trimming every piece brings in no character the pieces did not have. */
  lemma TrimAllKeepsOut(pieces: seq<string>, c: char)
    requires forall p :: p in pieces ==> c !in p
    ensures forall t :: t in TrimAll(pieces) ==> c !in t
  {
    var r := TrimAll(pieces);
    forall t | t in r ensures c !in t {
      var i :| 0 <= i < |r| && r[i] == t;
      assert pieces[i] in pieces;
      TrimKeepsOut(pieces[i], c);
    }
  }

  /** `tags.split(",").map(t => t.trim())`: one tag per comma plus one, none
      with white space at either end or a comma inside. */
  function TagsFromText(text: string): (tags: seq<string>)
    ensures |tags| == Occurrences(text, ',') + 1
    ensures forall t :: t in tags ==> Trimmed(t) && ',' !in t
  {
    TrimAllKeepsOut(Split(text, ','), ',');
    TrimAll(Split(text, ','))
  }

  /** Trimming never brings in a character the text did not have. */
  lemma TrimKeepsOut(s: string, c: char)
    requires c !in s
    ensures c !in Trim(s)
  {
    var t := TrimStart(s);
    SliceKeepsOut(s, c, |s| - |t|, |s|);
    var r := TrimEnd(t);
    SliceKeepsOut(t, c, 0, |r|);
  }

  lemma SliceKeepsOut(s: string, c: char, i: nat, j: nat)
    requires c !in s && i <= j <= |s|
    ensures c !in s[i..j]
  {
    forall k | 0 <= k < j - i ensures s[i..j][k] != c {
      assert s[i..j][k] == s[i + k];
    }
  }

  /** An empty tags field sends one empty tag, not an empty list. */
  lemma EmptyTagsText()
    ensures TagsFromText("") == [""]
  {
  }

  /** Joining tags with commas and reading them back gives the same tags, as
      long as there is at least one and none has a comma or white space at
      either end. */
  lemma TagsRoundTrip(tags: seq<string>)
    requires |tags| >= 1
    requires forall t :: t in tags ==> ',' !in t && Trimmed(t)
    ensures TagsFromText(Join(tags, ',')) == tags
  {
    SplitJoin(tags, ',');
    var r := TagsFromText(Join(tags, ','));
    forall i | 0 <= i < |tags| ensures r[i] == tags[i] {
      assert tags[i] in tags;
      TrimIdentity(tags[i]);
    }
  }

  /** Splitting the tags text handleEdit joins gives the task's own tags back.
      This relates the two functions only: the create screen never receives
      handleEdit's parameters. */
  lemma EditTagsRoundTrip(t: Task, kind: string)
    requires |t.tags| >= 1
    requires forall tag :: tag in t.tags ==> ',' !in tag && Trimmed(tag)
    ensures TagsFromText(HandleEdit(TaskItem(t), kind).tags) == t.tags
  {
    TagsRoundTrip(t.tags);
  }

  /** Splitting the tags text handleEdit writes for a task without tags gives
      one empty tag (a property of the two functions only). */
  lemma EditNoTags(t: Task, kind: string)
    requires t.tags == []
    ensures TagsFromText(HandleEdit(TaskItem(t), kind).tags) == [""]
  {
  }

  /** The task payload: title, due date, reminder, the parsed tags and the
      priority; no description and no completion flag. */
  function TaskPayload(f: Form): (body: TaskBody)
    ensures body.title == Some(f.title) && body.dueDate == Some(f.dueDate) && body.reminder == f.reminder
    ensures body.tags == Some(TagsFromText(f.tags)) && body.priority == Some(f.priority)
    ensures body.description.None? && body.completed.None?
  {
    TaskBody(Some(f.title), None, Some(f.dueDate), f.reminder, Some(TagsFromText(f.tags)),
             Some(f.priority), None)
  }

  /** The habit payload: title, type, unit and `parseInt` of the target,
      which is null when the text holds no number. */
  function HabitPayload(f: Form): (body: HabitBody)
    ensures body.title == Some(f.title) && body.habitType == Some(f.habitType) && body.unit == Some(f.habitUnit)
    ensures body.target == ParseInt(f.habitTarget)
    ensures AllWhite(f.habitTarget) ==> body.target.None?
    ensures body.log.None?
  {
    HabitBody(Some(f.title), Some(f.habitType), ParseInt(f.habitTarget), Some(f.habitUnit), None)
  }

  /** A target field holding digits only is sent as their decimal value. */
  lemma DigitsTarget(f: Form)
    requires f.habitTarget != [] && AllDigits(f.habitTarget)
    ensures HabitPayload(f).target == Some(NumeralValue(f.habitTarget, 10))
  {
    ParseIntDigits(f.habitTarget);
  }

  /** What handleSubmit posts, and where (the path below the server's address). */
  datatype Submission =
    | TaskPost(url: string, task: TaskBody)
    | HabitPost(url: string, habit: HabitBody)

  /** A task form posts the task payload to the tasks route; every other
      kind posts the habit payload to the habits route. */
  function Submit(f: Form): (s: Submission)
    ensures s.TaskPost? <==> f.kind == TaskKind
    ensures s.url == "/api/tasks" <==> f.kind == TaskKind
    ensures s.url == "/api/habits" <==> f.kind != TaskKind
    ensures s.TaskPost? ==> s.task == TaskPayload(f)
    ensures s.HabitPost? ==> s.habit == HabitPayload(f)
  {
    if f.kind == TaskKind then TaskPost("/api/tasks", TaskPayload(f))
    else HabitPost("/api/habits", HabitPayload(f))
  }

  /** A form switched to the habit kind posts the habit payload to the habits route. */
  lemma HabitFormPostsHabit(f: Form)
    requires f.kind == HabitKind
    ensures Submit(f) == HabitPost("/api/habits", HabitPayload(f))
  {
  }

  /** `!title.trim()` disables the button. */
  predicate SubmitEnabled(f: Form) {
    Trim(f.title) != ""
  }

  /** The button is enabled exactly when the title has a character that is
      not white space. */
  lemma SubmitEnabledIff(f: Form)
    ensures SubmitEnabled(f) <==> !AllWhite(f.title)
  {
    TrimEmpty(f.title);
  }

  /** The form opens with the button disabled. */
  lemma InitialFormDisabled(now: Time)
    ensures !SubmitEnabled(InitialForm(now))
  {
  }

  /** A task form whose button is enabled and whose priority came from the
      buttons passes the schema's checks, and the stored task is open, keeps
      the title as typed and carries trimmed tags. */
  lemma EnabledTaskAccepted(f: Form, id: Id, now: Time)
    requires SubmitEnabled(f) && f.kind == TaskKind && f.priority in PriorityButtons
    ensures TaskAccepted(TaskPayload(f))
    ensures var t := NewTask(id, TaskPayload(f), now);
            !t.completed && t.title == f.title && t.priority == f.priority
            && (forall tag :: tag in t.tags ==> Trimmed(tag))
  {
    SubmitEnabledIff(f);
  }

  /** A habit form whose button is enabled passes the schema's check and
      starts with an empty log. */
  lemma EnabledHabitAccepted(f: Form, id: Id, now: Time)
    requires SubmitEnabled(f) && f.kind != TaskKind
    ensures HabitAccepted(HabitPayload(f))
    ensures NewHabit(id, HabitPayload(f), now).log == map[]
  {
    SubmitEnabledIff(f);
  }
}
