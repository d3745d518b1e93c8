/** The habit grid's logic: how many columns a window width gives, how the
    habits are cut into rows, what the counter shows and when the −1 and +1
    buttons send an update. */
module HabitGrid {
  import opened Support
  import opened HabitModel
  import opened HabitUtils

  /** Two columns below 600, three below 900, four from there on. */
  function NumColumns(width: int): (c: nat)
    ensures 2 <= c <= 4
    ensures c == 2 <==> width < 600
    ensures c == 4 <==> width >= 900
  {
    if width < 600 then 2 else if width < 900 then 3 else 4
  }

  /** A wider window never gives fewer columns. */
  lemma NumColumnsMonotone(narrow: int, wide: int)
    requires narrow <= wide
    ensures NumColumns(narrow) <= NumColumns(wide)
  {
  }

  /** `Math.ceil(n / c)`. */
  function RowCount(n: nat, c: nat): (k: nat)
    requires c > 0
    ensures k * c >= n
    ensures k > 0 ==> (k - 1) * c < n
  {
    (n + c - 1) / c
  }

  /** `s.slice(start, end)` for 0 <= start <= end: the indices are clamped to
      the length. */
  function Slice<T>(s: seq<T>, start: int, end: int): (r: seq<T>)
    requires 0 <= start <= end
    ensures start <= |s| ==> r == s[start..if end <= |s| then end else |s|]
    ensures start > |s| ==> r == []
  {
    var from := if start <= |s| then start else |s|;
    var to := if end <= |s| then end else |s|;
    s[from..to]
  }

  lemma {:induction false} MulMonotone(a: nat, b: nat, c: nat)
    requires a <= b
    ensures a * c <= b * c
  {
    if a < b {
      MulMonotone(a, b - 1, c);
      assert (b - 1) * c + c == b * c;
    }
  }

  /** Row `r` of the grid: `items.slice(r * c, r * c + c)`. */
  function Row<T>(items: seq<T>, c: nat, r: nat): (row: seq<T>)
    requires c > 0
    ensures row == items[Min(r * c, |items|)..Min(r * c + c, |items|)]
    ensures r < RowCount(|items|, c) ==> 1 <= |row| <= c
  {
    var k := RowCount(|items|, c);
    if r < k then
      MulMonotone(r, k - 1, c);
      Slice(items, r * c, r * c + c)
    else Slice(items, r * c, r * c + c)
  }

  /** The first `k` rows. */
  function RowsUpTo<T>(items: seq<T>, c: nat, k: nat): (rows: seq<seq<T>>)
    requires c > 0
    ensures |rows| == k
  {
    if k == 0 then [] else RowsUpTo(items, c, k - 1) + [Row(items, c, k - 1)]
  }

  lemma {:induction false} RowsUpToAt<T>(items: seq<T>, c: nat, k: nat, r: nat)
    requires c > 0 && r < k
    ensures RowsUpTo(items, c, k)[r] == Row(items, c, r)
  {
    if r < k - 1 {
      RowsUpToAt(items, c, k - 1, r);
    }
  }

  /** One row for every `r` below `ceil(n / c)`, each holding between 1 and
      `c` habits. */
  function Rows<T>(items: seq<T>, c: nat): (rows: seq<seq<T>>)
    requires c > 0
    ensures |rows| == RowCount(|items|, c)
    ensures forall r :: 0 <= r < |rows| ==> rows[r] == Row(items, c, r) && 1 <= |rows[r]| <= c
  {
    var rows := RowsUpTo(items, c, RowCount(|items|, c));
    forall r | 0 <= r < |rows| ensures rows[r] == Row(items, c, r) {
      RowsUpToAt(items, c, |rows|, r);
    }
    rows
  }

  /** The rows put back together, one after the other. */
  function Flatten<T>(rows: seq<seq<T>>): seq<T> {
    if rows == [] then [] else Flatten(rows[..|rows| - 1]) + rows[|rows| - 1]
  }

  function Min(a: int, b: int): int { if a <= b then a else b }

  lemma {:induction false} RowsPrefix<T>(items: seq<T>, c: nat, k: nat)
    requires c > 0
    ensures Flatten(RowsUpTo(items, c, k)) == items[..Min(k * c, |items|)]
  {
    if k > 0 {
      var rows := RowsUpTo(items, c, k);
      assert rows[..k - 1] == RowsUpTo(items, c, k - 1);
      RowsPrefix(items, c, k - 1);
      var start := (k - 1) * c;
      var stop := k * c;
      assert start + c == stop;
      var from := Min(start, |items|);
      var upTo := Min(stop, |items|);
      assert Flatten(rows) == items[..from] + rows[k - 1];
      assert rows[k - 1] == items[from..upTo];
      assert items[..from] + items[from..upTo] == items[..upTo];
    }
  }

  /** The rows, read in order, are exactly the habits in their original order. */
  lemma RowsFlatten<T>(items: seq<T>, c: nat)
    requires c > 0
    ensures Flatten(Rows(items, c)) == items
  {
    RowsPrefix(items, c, RowCount(|items|, c));
    assert RowCount(|items|, c) * c >= |items|;
  }

  datatype Grid<T> = EmptyState | RowsOf(rows: seq<seq<T>>)

  /** What the grid renders: the empty component when there are no habits,
      otherwise the rows for the window's column count. */
  function Layout<T>(habits: seq<T>, width: int): (g: Grid<T>)
    ensures g.EmptyState? <==> habits == []
    ensures g.RowsOf? ==> Flatten(g.rows) == habits
    ensures g.RowsOf? ==> forall r :: 0 <= r < |g.rows| ==> 1 <= |g.rows[r]| <= NumColumns(width)
  {
    if |habits| == 0 then EmptyState
    else
      RowsFlatten(habits, NumColumns(width));
      RowsOf(Rows(habits, NumColumns(width)))
  }

  datatype Button = Minus | Plus

  /** A button is active only for today, and −1 only above 0. */
  predicate Enabled(button: Button, isToday: bool, logged: int) {
    match button
    case Minus => isToday && logged > 0
    case Plus => isToday
  }

  /** The update a press sends, if any: −1 or +1, and only when the button is
      enabled and an update handler was given. */
  function Press(button: Button, isToday: bool, logged: int, hasHandler: bool): (delta: Option<int>)
    ensures delta.Some? <==> Enabled(button, isToday, logged) && hasHandler
    ensures delta.Some? && button == Minus ==> delta.value == -1 && logged > 0
    ensures delta.Some? && button == Plus ==> delta.value == 1
    ensures delta.Some? ==> isToday
  {
    if !(Enabled(button, isToday, logged) && hasHandler) then None
    else match button
      case Minus => Some(-1)
      case Plus => Some(1)
  }

  /** The grid alone never drives a non-negative day below 0: whatever a press
      sends, the server's log keeps the day at 0 or more. */
  lemma PressKeepsNonNegative(h: Habit, day: DayKey, button: Button, isToday: bool,
                              hasHandler: bool, now: Time)
    requires GetLoggedValue(Some(h), day) >= 0
    requires Press(button, isToday, GetLoggedValue(Some(h), day), hasHandler).Some?
    ensures GetLoggedValue(Some(LogEntry(h, day, Press(button, isToday, GetLoggedValue(Some(h), day), hasHandler).value, now)), day) >= 0
  {
    ReadAfterLog(h, day, Press(button, isToday, GetLoggedValue(Some(h), day), hasHandler).value, now);
  }

  /** The counter: the day's logged value over the target, 0 when no target is set. */
  datatype Counter = Counter(logged: int, target: int)

  function CounterOf(h: Habit, day: DayKey): (c: Counter)
    ensures c.logged == GetLoggedValue(Some(h), day)
    ensures h.target.None? ==> c.target == 0
    ensures h.target.Some? ==> c.target == h.target.value
  {
    Counter(GetLoggedValue(Some(h), day), h.target.GetOr(0))
  }

  /** After a +1 is logged for the shown day, the counter reads one more and the
      target stays. */
  lemma PlusAdvancesCounter(h: Habit, day: DayKey, now: Time)
    ensures CounterOf(LogEntry(h, day, 1, now), day)
         == CounterOf(h, day).(logged := CounterOf(h, day).logged + 1)
  {
    ReadAfterLog(h, day, 1, now);
  }
}
