# Habit, task and mood tracker — a Dafny model of the core

The tracker is a small Express/Mongoose server with three collections and a
React Native client that reads and writes them. This project models:

- **habits** — a title, an optional type, target and unit, and a log that maps
  a calendar day to the amount logged that day;
- **tasks** — a title, an optional description, due date and reminder, tags, a
  priority and a completion flag;
- **moods** — an emoji, an optional note and the time the entry was saved.

It covers both sides of the system:

- **The server side.** The routes that list, create, update and delete each
  kind of document, and the schema checks that decide between a 201 and a 400.
  Each collection is an imperative store (`HabitStore`, `TaskStore`,
  `MoodStore`) whose methods change its map or sequence and say what the new
  state is.
- **The client side.** The pure helpers and the state transitions of the data
  hook:
  - how the day's logged value is read;
  - how the habit grid cuts habits into rows and when its −1/+1 buttons fire;
  - how tasks are sorted and coloured;
  - what a delete, a mark-done, a log update or an edit does to the client's
    lists;
  - what the create screen posts, and when its button is enabled;
  - how moods are counted;
  - how dates and times are shown and masked while typed.

The JavaScript built-ins the client relies on are written out in `Text`:
`trim`, `split`, `join`, `parseInt`, `String(n)` and `padStart`. Stable sorting
is written out in `Sorting`.

Modules: `Support`, `Sorting`, `Text`, `HabitModel`, `HabitRoutes`,
`HabitUtils`, `HabitGrid`, `TaskModel`, `TaskRoutes`, `TaskUtils`,
`TaskHabitData`, `CreateEntry`, `MoodModel`, `MoodRoutes`, `MoodUtils`,
`DateUtils`.

Conventions of the model:

- **Ids.** Document ids are natural numbers handed out in increasing order.
- **Times.** Timestamps are integers.
- **Day keys.** A habit log's day key is a string supplied by the caller.
- **Failures.** A save the schema refuses answers 400 with `DriverError`.
- **Mongoose behaviour** the routes depend on, and that the model follows:
  - a `required` string refuses a missing value and the empty string;
  - keys that are `undefined` in an update are not written (Mongoose 6 or later is assumed; earlier versions could write them as `null`);
  - update validators do not run on `findByIdAndUpdate`;
  - a document's own validators run again on every `save`;
  - a missing `dueDate` sorts before every present one in ascending order.
- **Sort ties and unsorted scans.** The order in which the database returns
  documents with equal sort keys, or the documents of a `find()` without a
  sort, is not fixed. The model picks one permitted order: the documents in id
  order, stably sorted where the route sorts.

## Model

| member | source | states |
|---|---|---|
| Support.CollectInIdOrder | backend/routes/habits.js:13 | the unsorted collection scan returns every stored document exactly once, in increasing id order (the order the model fixes for a scan without a sort) |
| Sorting.SortBy | frontend/constants/utility/taskUtils.js:7-13 | sorting returns a permutation of the input (same multiset) that is ordered by the key |
| Sorting.SortByStable | frontend/constants/utility/taskUtils.js:7-13 | elements with equal keys keep their relative order (the sort is stable) |
| Sorting.SortBySorted | frontend/constants/utility/taskUtils.js:7-13 | a list already in key order is returned unchanged |
| Text.Trim | frontend/screens/CreateEntryScreen.js:38 | trim returns the piece of the text that starts after the leading white space, with no white space at either end; everything cut off is white space |
| Text.TrimIdentity | frontend/screens/CreateEntryScreen.js:38 | trimming leaves a text unchanged exactly when neither end is white space |
| Text.TrimEmpty | frontend/screens/CreateEntryScreen.js:211 | trimming gives "" exactly when the text is white space only |
| Text.Split | frontend/screens/CreateEntryScreen.js:38 | split on a character gives one piece more than there are separators, and no piece holds the separator |
| Text.SplitJoin | frontend/hooks/useTaskHabitData.js:134 | joining a non-empty list of separator-free parts and splitting again gives the parts back |
| Text.JoinSplit | frontend/screens/CreateEntryScreen.js:38 | splitting a text and joining the pieces gives the text back |
| Text.NatToDecimal | frontend/constants/utility/dateUtils.js:3 | String(n) is a non-empty run of digits, with no leading zero, whose decimal value is n |
| Text.ParseInt | frontend/screens/CreateEntryScreen.js:45 | parseInt of an empty or all-white text is NaN (None) |
| Text.ParseIntDigits | frontend/screens/CreateEntryScreen.js:45 | parseInt of a non-empty run of digits is their decimal value |
| Text.ParseIntDecimal | frontend/hooks/useTaskHabitData.js:136 | parseInt(String(n)) == n for every integer, negative ones included |
| Text.PadStart | frontend/constants/utility/dateUtils.js:3 | padStart gives max(length, width) characters: fill characters in front of the unchanged text |
| HabitModel.NewHabit | backend/routes/habits.js:22-27 | a new habit copies title (or "" when absent), type, target and unit, starts with an empty log, is stamped with the insert time, and is valid exactly when the body has a non-empty title |
| HabitModel.LoggedOn | backend/routes/habits.js:47 | the day's entry, or 0 for a day never logged |
| HabitModel.LogEntry | backend/routes/habits.js:47-48 | logging adds the amount to the day's entry, leaves every other day and field alone, and stamps the update time |
| HabitModel.EditHabit | backend/routes/habits.js:60-69 | each of title, type, target and unit present in the body overwrites the stored one; id, log and creation time are kept |
| HabitModel.NoClampAtZero | backend/routes/habits.js:47-48 | logging −1 on an empty day stores −1: there is no floor at 0 |
| HabitModel.OvershootAllowed | backend/routes/habits.js:47-48 | logging past the target is accepted and does not affect validity |
| HabitModel.LogEntryAdds | backend/routes/habits.js:47-48 | logging a and then b on one day equals one log of a + b |
| HabitRoutes.HabitStore.List | backend/routes/habits.js:11-18 | GET answers 200 with every stored habit, in id order (the order the model fixes for `find()` without a sort) |
| HabitRoutes.HabitStore.Create | backend/routes/habits.js:21-35 | POST answers 201 with the new habit and stores it under a fresh id, or 400 with nothing changed when the title is missing or empty |
| HabitRoutes.HabitStore.Log | backend/routes/habits.js:38-55 | PATCH log answers 404 "Habit not found" for an unknown id, 400 if the document fails its checks on save, and otherwise 200 with the day's entry increased by the amount; only that habit changes |
| HabitRoutes.HabitStore.Edit | backend/routes/habits.js:58-74 | PATCH answers 200 with the edited habit and never touches the log; an unknown id answers 200 with null and changes nothing |
| HabitRoutes.HabitStore.Delete | backend/routes/habits.js:77-85 | DELETE always answers 200 "Habit deleted", removes that id and keeps every other habit |
| HabitRoutes.ThreeLogsReadThree | backend/routes/habits.js:38-55 | creating a habit and logging 1 three times on one day leaves 3 in that day's entry |
| HabitUtils.GetLoggedValue | frontend/constants/utility/habitUtils.js:1-5 | 0 without a habit or without an entry for the day, otherwise the stored amount as it is |
| HabitUtils.ReadAfterLog | frontend/constants/utility/habitUtils.js:1-5 | after the server logs an amount on a day, the client reads the previous value plus that amount |
| HabitUtils.ReadOtherDayAfterLog | frontend/constants/utility/habitUtils.js:1-5 | logging one day does not change what any other day reads |
| HabitUtils.NewHabitReadsZero | frontend/constants/utility/habitUtils.js:1-5 | a newly created habit reads 0 on every day |
| HabitGrid.NumColumns | frontend/components/Lists/HabitGrid.js:30 | 2 columns below width 600, 4 from 900 up, 3 between |
| HabitGrid.NumColumnsMonotone | frontend/components/Lists/HabitGrid.js:30 | a wider window never gives fewer columns |
| HabitGrid.RowCount | frontend/components/Lists/HabitGrid.js:52 | ceil(n / c): enough rows for every habit and not one row more |
| HabitGrid.Slice | frontend/components/Lists/HabitGrid.js:55 | slice clamps both ends to the length of the list |
| HabitGrid.Row | frontend/components/Lists/HabitGrid.js:54-55 | row r holds the habits from r·c up to r·c + c, and every row below the row count holds between 1 and c habits |
| HabitGrid.Rows | frontend/components/Lists/HabitGrid.js:52-56 | exactly ceil(n / c) rows, row r being habits r·c up to r·c + c, each non-empty and at most c long |
| HabitGrid.RowsFlatten | frontend/components/Lists/HabitGrid.js:52-56 | the rows read one after another are exactly the habits in their original order: none lost, repeated or reordered |
| HabitGrid.Layout | frontend/components/Lists/HabitGrid.js:49-56 | the empty component shows exactly when there are no habits; otherwise the rows hold all habits, at most the column count per row |
| HabitGrid.Press | frontend/components/Lists/HabitGrid.js:106-138 | a press sends −1 (only above 0) or +1, and only for today with an update handler; otherwise it sends nothing |
| HabitGrid.PressKeepsNonNegative | frontend/components/Lists/HabitGrid.js:113-119 | starting from a non-negative day, no update the buttons send can drive it below 0 |
| HabitGrid.CounterOf | frontend/components/Lists/HabitGrid.js:123-125 | the counter shows the day's logged value, over the habit's target, or over 0 when none is set |
| HabitGrid.PlusAdvancesCounter | frontend/components/Lists/HabitGrid.js:133-135 | after +1 is logged, the counter reads one more and shows the same target |
| TaskModel.NewTask | backend/routes/tasks.js:17-24 | a new task copies the title (or "" when absent) and the other fields, is never completed, defaults tags to [] and priority to Medium, and has a non-empty title and an enum priority when the body is accepted |
| TaskModel.PatchTask | backend/routes/tasks.js:36-40 | the $set merge: every field present in the body overwrites the stored one, absent ones are kept, the id and creation time never change |
| TaskModel.PatchNothing | backend/routes/tasks.js:38 | a merge of an empty body changes nothing but the update time |
| TaskRoutes.Listing | backend/routes/tasks.js:8 | GET's order is a permutation of the tasks: tasks without a due date first, then the others by ascending due date |
| TaskRoutes.CompletedListing | backend/routes/tasks.js:51 | exactly the completed tasks (with multiplicity), most recently updated first |
| TaskRoutes.TaskStore.List | backend/routes/tasks.js:6-13 | GET answers 200 with every stored task, in listing order |
| TaskRoutes.TaskStore.Create | backend/routes/tasks.js:16-32 | POST answers 201 with the new task stored under a fresh id, or 400 with nothing changed when the title or priority is refused |
| TaskRoutes.TaskStore.Patch | backend/routes/tasks.js:34-46 | PATCH answers 404 "Task not found" with nothing changed for an unknown id, otherwise 200 with the merged task, and only that task changes |
| TaskRoutes.TaskStore.Completed | backend/routes/tasks.js:49-56 | GET completed answers 200 with exactly the completed stored tasks |
| TaskRoutes.TaskStore.Delete | backend/routes/tasks.js:59-67 | DELETE always answers 200 "Task deleted", removes that id and keeps every other task |
| TaskRoutes.CompleteTaskScenario | backend/routes/tasks.js:49-56 | a new task is absent from the completed listing, and present once it is patched with completed: true |
| TaskUtils.PriorityOrder | frontend/constants/utility/taskUtils.js:10-12 | High 0, Medium 1, Low 2, the empty priority counting as Medium; every other value has no rank |
| TaskUtils.PriorityOrderStrict | frontend/constants/utility/taskUtils.js:10 | High sorts strictly before Medium, which sorts strictly before Low |
| TaskUtils.SortTasks | frontend/constants/utility/taskUtils.js:4-16 | a missing list gives []; the dueDate mode gives a permutation in ascending due date, the priority mode one in High–Medium–Low order; any other mode returns the list unchanged |
| TaskUtils.DefaultModeSortsByDueDate | frontend/constants/utility/taskUtils.js:4-7 | without a mode, dated tasks come back ordered by due date, as a permutation of the input |
| TaskUtils.SortTasksStable | frontend/constants/utility/taskUtils.js:7-13 | tasks with equal keys keep their order in either sort mode |
| TaskUtils.SortTasksIdempotent | frontend/constants/utility/taskUtils.js:4-16 | sorting a sorted list again in the same mode changes nothing |
| TaskUtils.GetPriorityStyle | frontend/constants/utility/taskUtils.js:19-30 | High and Medium get their own style, and every other value (Low, empty, unknown) gets the Low style |
| TaskUtils.StyleAgreesWithOrder | frontend/constants/utility/taskUtils.js:19-30 | for the three enum values, the style's rank equals the sort rank |
| TaskUtils.EmptyPriorityMismatch | frontend/constants/utility/taskUtils.js:12 | an empty priority sorts with the Medium tasks but is drawn with the Low style |
| TaskHabitData.FetchedTasks | frontend/hooks/useTaskHabitData.js:24 | the hook keeps exactly the fetched tasks that are not completed, in their fetched order |
| TaskHabitData.OpenAndCompletedPartition | frontend/hooks/useTaskHabitData.js:24 | the open tasks the home screen keeps and the server's completed listing together hold every task exactly once |
| TaskHabitData.DeleteRoute | frontend/hooks/useTaskHabitData.js:48 | "habit" and "habits" delete on the habits route, and every other kind on the tasks route |
| TaskHabitData.DefaultKindDeletesTask | frontend/hooks/useTaskHabitData.js:46-51 | without a type, handleDelete targets the tasks route and asks about a "task" |
| TaskHabitData.ConfirmNoun | frontend/hooks/useTaskHabitData.js:51 | the confirmation noun is the route without its trailing "s" |
| TaskHabitData.DropId | frontend/hooks/useTaskHabitData.js:57 | removes exactly the entries with that id and keeps the others in order |
| TaskHabitData.DeleteRequest | frontend/hooks/useTaskHabitData.js:49-55 | a DELETE on the kind's route is sent exactly when the user confirms |
| TaskHabitData.AfterDelete | frontend/hooks/useTaskHabitData.js:47-92 | without confirmation, or when the fetch rejects, nothing changes; otherwise the other list is unchanged and the route's list becomes exactly its filter without that id (DropId: same order, the others kept, each as often as before) |
| TaskHabitData.DeleteMatchesServer | frontend/hooks/useTaskHabitData.js:55-57 | after a delete, the client's list holds the same tasks as a fresh fetch of the store with that id removed |
| TaskHabitData.MarkDoneCompletes | frontend/hooks/useTaskHabitData.js:100 | the mark-done body sets completed and the update time and nothing else |
| TaskHabitData.MarkDoneRequest | frontend/hooks/useTaskHabitData.js:97-101 | mark-done sends a PATCH of that task with completed: true |
| TaskHabitData.AfterMarkDone | frontend/hooks/useTaskHabitData.js:95-106 | once the request resolves, the task list becomes exactly its filter without that id (the others kept in order); a rejected request changes nothing; habits are never touched |
| TaskHabitData.MarkDoneMatchesServer | frontend/hooks/useTaskHabitData.js:97-102 | after a mark-done, the client's list holds the same tasks as a fresh fetch of the patched store |
| TaskHabitData.ReplaceId | frontend/hooks/useTaskHabitData.js:117 | entries with the id become the reply, and the others stay in place |
| TaskHabitData.AfterUpdateHabit | frontend/hooks/useTaskHabitData.js:109-121 | a reply replaces every habit with that id; the task list and the other habits are unchanged; no reply changes nothing |
| TaskHabitData.UpdateHabitShowsLog | frontend/hooks/useTaskHabitData.js:116-117 | after the server applies updateHabit's `{ amount: delta }` request and its reply replaces the habit, the client reads the day's old value plus the delta |
| TaskHabitData.HandleEdit | frontend/hooks/useTaskHabitData.js:125-141 | the edit parameters: tags are joined with commas, an empty priority becomes Medium and any other is kept, missing texts become "", and a habit's target text parses back to its target |
| CreateEntry.InitialForm | frontend/screens/CreateEntryScreen.js:17-29 | the screen opens on a task with an empty title, due now, no reminder or tags, and Medium priority |
| CreateEntry.ButtonsWithinEnum | frontend/screens/CreateEntryScreen.js:171-180 | every priority button sets a value the schema's enum accepts, and the initial priority is one of them |
| CreateEntry.TrimAll | frontend/screens/CreateEntryScreen.js:38 | every piece is trimmed in place, so no tag has white space at either end |
| CreateEntry.TrimAllKeepsOut | frontend/screens/CreateEntryScreen.js:38 | trimming the pieces brings in no character they did not have, so comma-free pieces stay comma-free |
| CreateEntry.TagsFromText | frontend/screens/CreateEntryScreen.js:38 | one tag more than there are commas, each trimmed and free of commas |
| CreateEntry.EmptyTagsText | frontend/screens/CreateEntryScreen.js:38 | an empty tags field sends [""], not [] |
| CreateEntry.TagsRoundTrip | frontend/screens/CreateEntryScreen.js:38 | tags joined with commas and read back are the same tags, when there is at least one and none holds a comma or outer white space |
| CreateEntry.EditTagsRoundTrip | frontend/hooks/useTaskHabitData.js:134 | splitting the comma-join of tags that are trimmed, non-empty and comma-free gives the tags back (a round trip between the two functions only; the app never hands the joined text to the create screen) |
| CreateEntry.EditNoTags | frontend/hooks/useTaskHabitData.js:134 | splitting the comma-join of no tags gives one empty tag (a property of the two functions only) |
| CreateEntry.TaskPayload | frontend/screens/CreateEntryScreen.js:34-40 | the task payload carries title, due date, reminder, the parsed tags and priority, and no description or completed flag |
| CreateEntry.HabitPayload | frontend/screens/CreateEntryScreen.js:42-47 | the habit payload carries title, type, unit and parseInt of the target, which is null for an empty target |
| CreateEntry.DigitsTarget | frontend/screens/CreateEntryScreen.js:45 | a target of digits only is sent as its decimal value |
| CreateEntry.Submit | frontend/screens/CreateEntryScreen.js:49-51 | the tasks URL and the task payload exactly when the kind is "task"; otherwise the habits URL and the habit payload |
| CreateEntry.HabitFormPostsHabit | frontend/screens/CreateEntryScreen.js:49-51 | a form switched to "habit" posts the habit payload to the habits route |
| CreateEntry.SubmitEnabledIff | frontend/screens/CreateEntryScreen.js:211 | the button is enabled exactly when the title has a character that is not white space |
| CreateEntry.InitialFormDisabled | frontend/screens/CreateEntryScreen.js:211 | the button starts disabled |
| CreateEntry.EnabledTaskAccepted | frontend/screens/CreateEntryScreen.js:34-40 | an enabled task form with a button priority is accepted by the server and stored open, with its title and trimmed tags |
| CreateEntry.EnabledHabitAccepted | frontend/screens/CreateEntryScreen.js:42-47 | an enabled habit form is accepted by the server, and the habit starts with an empty log |
| MoodModel.NewMood | backend/routes/moods.js:22-25 | a new entry keeps the mood and the note, and its date is always the time of the insert |
| MoodRoutes.MoodListing | backend/routes/moods.js:13 | every entry exactly once (as a multiset), newest first |
| MoodRoutes.MoodStore.List | backend/routes/moods.js:11-18 | GET answers 200 with the entries newest first |
| MoodRoutes.MoodStore.Create | backend/routes/moods.js:21-33 | POST appends the new entry and answers 201, or answers 400 with nothing changed when the mood is missing or empty |
| MoodRoutes.NewestFirstScenario | backend/routes/moods.js:13 | of two entries saved one after the other, the later one is listed first |
| MoodUtils.MoodsDistinct | frontend/constants/utility/moodUtils.js:1 | six moods, none offered twice |
| MoodUtils.Tally | frontend/constants/utility/moodUtils.js:6 | the count never exceeds the number of entries, and is 0 exactly when no entry has that mood |
| MoodUtils.TallyAppend | frontend/constants/utility/moodUtils.js:6 | counts over two lists of entries add up |
| MoodUtils.SumIsKnown | frontend/constants/utility/moodUtils.js:3-9 | the counts of distinct moods add up to the number of entries carrying one of them: no entry is counted twice |
| MoodUtils.CountsAddUp | frontend/constants/utility/moodUtils.js:3-9 | when every entry carries one of the six moods, the counts add up to the number of entries |
| MoodUtils.CountOf | frontend/constants/utility/moodUtils.js:6 | the counting loop returns the number of entries with that mood |
| MoodUtils.CountMoods | frontend/constants/utility/moodUtils.js:3-9 | one count for each of the six moods, each the number of the day's entries with that mood |
| DateUtils.Digits | frontend/constants/utility/dateUtils.js:18 | the digits of the text, in their order, with nothing else |
| DateUtils.DigitsCount | frontend/constants/utility/dateUtils.js:18 | every digit occurs in the result as often as in the text; no other character occurs |
| DateUtils.DateMask | frontend/constants/utility/dateUtils.js:19-21 | up to 8 digits are shown in the same order, with a slash after the second and after the fourth when more follow, and digits everywhere else |
| DateUtils.FormatDateInput | frontend/constants/utility/dateUtils.js:17-22 | exactly n, n+1 or n+2 characters for n (at most 8) digits kept — a slash only once a digit follows it — showing the first 8 digits typed, with the slashes at positions 2 and 5 |
| DateUtils.FormatDateInputIdempotent | frontend/constants/utility/dateUtils.js:17-22 | masking an already masked date changes nothing |
| DateUtils.TimeMask | frontend/constants/utility/dateUtils.js:26-27 | up to 4 digits are shown in the same order, with a colon after the second when more follow |
| DateUtils.FormatTimeInput | frontend/constants/utility/dateUtils.js:24-28 | exactly n or n+1 characters for n (at most 4) digits kept — a colon only once a third digit follows — showing the first 4 digits typed, with the colon at position 2 |
| DateUtils.FormatTimeInputIdempotent | frontend/constants/utility/dateUtils.js:24-28 | masking an already masked time changes nothing |
| DateUtils.Pad2 | frontend/constants/utility/dateUtils.js:3 | a number below 100 is shown as exactly two digits worth that number |
| DateUtils.FormatDate | frontend/constants/utility/dateUtils.js:1-7 | no date gives ""; a date gives DD/MM/YYYY whose three fields read back as the day, the month counted from 1, and the year |
| DateUtils.FormatTime | frontend/constants/utility/dateUtils.js:9-15 | no date gives ""; a date gives HH:MM whose two fields read back as the hours and the minutes |
| DateUtils.FormatDateMaskStable | frontend/constants/utility/dateUtils.js:1-22 | a date as formatDate shows it passes through the date input mask unchanged |
| DateUtils.FormatTimeMaskStable | frontend/constants/utility/dateUtils.js:9-28 | a time as formatTime shows it passes through the time input mask unchanged |

## Left out

- **I/O and the network.** HTTP transport, JSON encoding, the `API_URL` prefix, `console.error` logging and the router's navigation are not modelled.
  - URLs are the paths below the server's address.
  - A client request is modelled by what it sends and by whether it resolved or rejected.
- **Clocks.** `new Date()` and `Date.now` become parameters: `now` for timestamps, and a day key for the habit log's "today".
  - The day key is computed as an ISO date in UTC.
  - For formatDate/formatTime, the local calendar fields arrive as a `LocalDateTime` value.
  - Time zones and `toISOString` are not modelled.
- **Database failures.** The 500 answers of the GET and DELETE routes after a database failure are not modelled. The 400 answer for an id that is not a valid ObjectId is not modelled either.
  - Ids are natural numbers handed out by the store.
  - The only 400 modelled is a save the schema refuses.
- **Arbitrary keys in a task PATCH.** A task PATCH sends the whole request body to `$set`. The model merges only the seven schema fields. Any other key is not modelled, including `_id` and the timestamps.
- **Concurrency.** Two log requests running at once can interleave their read-modify-write. The model runs requests one at a time.
- **Untyped values.** Non-numeric log amounts (a missing `amount`, which yields NaN) and non-numeric stored values are not modelled. Habit logs hold integers.
- **Field types.** Fields are typed: integers for numbers, `Option` for missing values.
  - Targets are integers, so a fractional target is not modelled.
  - `Number.prototype.toString` is modelled only for integers. Its exponent notation from 1e21 up is not modelled.
- **lastCompleted.** The schema's `lastCompleted` field of a habit is written and read by no route, so the model leaves it out.
- **Client state and rendering.** The pull-to-refresh flag, the focus-effect refetch trigger, the three-dot menu selection, styles and opacity are not modelled. The quotes route and the server bootstrap are not part of this model.
- **Platform dialogs.** The web `window.confirm` and the native `Alert` dialog are both modelled as one `confirmed` flag.
- **Reminder format.** handleEdit's conversion of the reminder to an ISO string is not modelled. The reminder is carried as a timestamp.
- **Sort ties and unsorted scans.** Documents with equal sort keys, and the documents of `Habit.find()` (which has no sort), come back from the database in an order the database does not fix. The model fixes one permitted order: the documents in id order, stably sorted where the route sorts. Support.CollectInIdOrder and HabitRoutes.HabitStore.List state that chosen order, not a promise of the database.
- **Text.ParseIntDigits:** exact for every run of digits. JavaScript numbers are IEEE doubles, so parseInt rounds values from 2^53 up; that rounding is not modelled.
- **Text.ParseIntDecimal:** exact for every integer. Beyond 2^53 the double that the source parses differs; that is not modelled.
- **CreateEntry.DigitsTarget:** exact for every run of digits. The source's parseInt rounds targets from 2^53 up; that is not modelled.
- **HabitModel.LogEntry:** adds exactly. The source's `current + amount` is a double sum that rounds once the result passes 2^53; that is not modelled.
- **Edit parameters never reach the form.** handleEdit pushes its parameters to the create-entry route (frontend/hooks/useTaskHabitData.js:140). CreateEntryScreen reads no route parameters: its fields start from fixed values (frontend/screens/CreateEntryScreen.js:17-29). So "Edit" opens an empty create form, and the model keeps it so: CreateEntry.InitialForm takes nothing from the route. CreateEntry.EditTagsRoundTrip and CreateEntry.EditNoTags are properties of the join and split functions only, not of a flow the app performs.
- **TaskUtils.SortTasks:**
  - It requires every task to have a due date in the dueDate mode, and a known or empty priority in the priority mode. Otherwise the source's comparator returns NaN and the order depends on the JavaScript engine.
  - A truthy input that is not an array is returned as it is by the source. That case is not modelled: the input is a list or missing.
- **TaskHabitData.AfterUpdateHabit:** only a habit reply, or none, is modelled. When the server answers 404 or 400, the source puts the error body in the habit's place in the list. The model cannot express that.
- **DateUtils.FormatDate:** the layout of the fields is stated only for real calendar dates with a four-digit year. For other years the source's output has a different width. An invalid Date is not modelled.
- **DateUtils.FormatTime:** the layout is stated only for hours 0–23 and minutes 0–59.
