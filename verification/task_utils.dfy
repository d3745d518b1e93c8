/** `sortTasks` and `getPriorityStyle`: how the client orders a task list and
    which colour a task card gets. */
module TaskUtils {
  import opened Support
  import opened Sorting
  import opened TaskModel

  const DueDateMode: string := "dueDate"
  const PriorityMode: string := "priority"

  /** The mode used when the caller gives none. */
  const DefaultSortMode: string := DueDateMode

  /** `order[p || "Medium"]`: High 0, Medium 1, Low 2; the empty priority
      counts as Medium; anything else has no place in the order. */
  function PriorityOrder(p: string): (rank: Option<int>)
    ensures rank.Some? <==> p in Priorities || p == ""
    ensures rank.Some? ==> 0 <= rank.value <= 2
    ensures p == "" || p == DefaultPriority ==> rank == Some(1)
  {
    var q := if p == "" then DefaultPriority else p;
    if q == "High" then Some(0)
    else if q == "Medium" then Some(1)
    else if q == "Low" then Some(2)
    else None
  }

  /** The three levels are strictly ordered High, Medium, Low. */
  lemma PriorityOrderStrict()
    ensures PriorityOrder("High").value < PriorityOrder("Medium").value < PriorityOrder("Low").value
  {
  }

  predicate Ranked(t: Task) { PriorityOrder(t.priority).Some? }

  /** The priority sort key; only applied to ranked tasks. */
  function PriorityRank(t: Task): int { PriorityOrder(t.priority).GetOr(1) }

  /** The key the given mode sorts by. */
  function ModeKey(mode: string): Task -> int {
    if mode == PriorityMode then PriorityRank else DueKey
  }

  /** What the comparator of the mode needs to be a consistent order: every
      task has a due date in the due-date mode, and a known or empty priority in
      the priority mode. */
  predicate Sortable(data: seq<Task>, mode: string) {
    && (mode == DueDateMode ==> forall t :: t in data ==> HasDueDate(t))
    && (mode == PriorityMode ==> forall t :: t in data ==> Ranked(t))
  }

  /** A missing list gives the empty list; the due-date mode orders by
      ascending due date, the priority mode High before Medium before Low, and
      any other mode returns the list as it came.  Sorting works on a copy and
      loses or adds nothing. */
  function SortTasks(data: Option<seq<Task>>, mode: string): (r: seq<Task>)
    requires data.Some? ==> Sortable(data.value, mode)
    ensures data.None? ==> r == []
    ensures data.Some? ==> multiset(r) == multiset(data.value)
    ensures data.Some? ==> forall t :: t in r ==> t in data.value
    ensures data.Some? && mode == DueDateMode ==> SortedBy(r, DueKey)
    ensures data.Some? && mode == PriorityMode ==> SortedBy(r, PriorityRank)
    ensures data.Some? && mode != DueDateMode && mode != PriorityMode ==> r == data.value
  {
    match data
    case None => []
    case Some(ts) =>
      if mode == DueDateMode || mode == PriorityMode then
        var r := SortBy(ts, ModeKey(mode));
        forall t | t in r ensures t in ts {
          assert t in multiset(r);
        }
        r
      else ts
  }

  /** Without a mode, sortTasks orders by ascending due date. */
  lemma DefaultModeSortsByDueDate(data: seq<Task>)
    requires forall t :: t in data ==> HasDueDate(t)
    ensures SortedBy(SortTasks(Some(data), DefaultSortMode), DueKey)
    ensures multiset(SortTasks(Some(data), DefaultSortMode)) == multiset(data)
  {
  }

  /** Tasks with the same key keep their relative order in every mode. */
  lemma SortTasksStable(data: seq<Task>, mode: string, k: int)
    requires Sortable(data, mode)
    ensures WithKey(SortTasks(Some(data), mode), ModeKey(mode), k) == WithKey(data, ModeKey(mode), k)
  {
    if mode == DueDateMode || mode == PriorityMode {
      SortByStable(data, ModeKey(mode), k);
    }
  }

  /** Sorting an already sorted list again changes nothing. */
  lemma SortTasksIdempotent(data: seq<Task>, mode: string)
    requires Sortable(data, mode)
    ensures Sortable(SortTasks(Some(data), mode), mode)
    ensures SortTasks(Some(SortTasks(Some(data), mode)), mode) == SortTasks(Some(data), mode)
  {
    var once := SortTasks(Some(data), mode);
    forall t | t in once ensures t in data {
      assert t in multiset(once);
    }
    if mode == DueDateMode || mode == PriorityMode {
      SortBySorted(once, ModeKey(mode));
    }
  }

  /** The card styles of the three priority levels. */
  datatype PriorityStyle = HighPriority | MediumPriority | LowPriority

  /** High and Medium get their own style; Low and every other value, the
      empty one included, get the Low style. */
  function GetPriorityStyle(priority: string): (s: PriorityStyle)
    ensures s == HighPriority <==> priority == "High"
    ensures s == MediumPriority <==> priority == "Medium"
    ensures s == LowPriority <==> priority != "High" && priority != "Medium"
  {
    match priority
    case "High" => HighPriority
    case "Medium" => MediumPriority
    case _ => LowPriority
  }

  function StyleRank(s: PriorityStyle): int {
    match s
    case HighPriority => 0
    case MediumPriority => 1
    case LowPriority => 2
  }

  /** For the three enum values, the style and the sort position agree. */
  lemma StyleAgreesWithOrder(p: string)
    requires p in Priorities
    ensures StyleRank(GetPriorityStyle(p)) == PriorityOrder(p).value
  {
  }

  /** A task with an empty priority sorts among the Medium ones but is drawn
      with the Low style. */
  lemma EmptyPriorityMismatch()
    ensures PriorityOrder("") == PriorityOrder("Medium")
    ensures GetPriorityStyle("") == LowPriority && GetPriorityStyle("Medium") == MediumPriority
  {
  }
}
