/** The month grid, day bucketing and drop-to-reschedule logic that both
    calendar views compute (src/components/calendar/CalendarView.tsx and
    src/components/CalendarView.tsx), and the droppable id a day cell
    registers (src/components/calendar/CalendarDay.tsx). */
module CalendarGrid {
  import opened Wrappers
  import opened Dates
  import opened Text
  import opened TodoTypes
  import Seqs

  /** Number of cells in the grid: six weeks of seven days. */
  const GridSize := 42

  /** `getDaysInMonth(date)`: the day of month of `new Date(y, m + 1, 0)`. */
  function DaysInMonthOf(year: int, month: int): (r: int)
    ensures 1 <= r <= 31
  {
    NewDate(year, month + 1, 0).day
  }

  /** Day 0 of the next month is the last day of the shown month, so the
      value is the month's length (of the year `new Date` reads `year` as). */
  lemma DaysInMonthOfIsLength(year: int, month: int)
    requires 0 <= month < 12
    ensures DaysInMonthOf(year, month) == DaysInMonth(ConstructorYear(year), month)
    ensures 28 <= DaysInMonthOf(year, month) <= 31
  {
    var y := ConstructorYear(year);
    assert ConstructorYear(y) == y;
    assert NewDate(year, month + 1, 0) == NewDate(y, month + 1, 0);
    DayZeroIsLastDayOfPreviousMonth(y, month);
  }

  /** `firstDayOfMonth`: weekday of the 1st, 0 = Sunday. */
  function FirstWeekday(year: int, month: int): (w: int)
    ensures 0 <= w < 7
  {
    Weekday(NewDate(year, month, 1))
  }

  /** `Array.from({ length: 42 }, (_, i) => ...)`: cell `i` holds
      `i - firstDayOfMonth + 1` when that lies in 1..daysInMonth and null
      (None) otherwise. */
  function Grid(first: int, days: int): (r: seq<Option<int>>)
    ensures |r| == GridSize
    ensures forall i :: 0 <= i < |r| && r[i].Some? ==> 1 <= r[i].value <= days
  {
    seq(GridSize, i => var d := i - first + 1; if d > 0 && d <= days then Some(d) else None)
  }

  function Blanks(n: nat): (r: seq<Option<int>>)
    ensures |r| == n && forall k :: 0 <= k < n ==> r[k].None?
  {
    seq(n, _ => None)
  }

  /** The days 1..n, in ascending order. */
  function DayRun(n: nat): (r: seq<Option<int>>)
    ensures |r| == n && forall k :: 0 <= k < n ==> r[k] == Some(k + 1)
  {
    seq(n, k => Some(k + 1))
  }

  /** The grid is `first` padding cells, then the days 1..days ascending and
      contiguous, then padding up to 42 cells. */
  lemma GridLayout(first: int, days: int)
    requires 0 <= first < 7 && 28 <= days <= 31
    ensures Grid(first, days) == Blanks(first) + DayRun(days) + Blanks(GridSize - first - days)
  {
    var g, l := Grid(first, days), Blanks(first) + DayRun(days) + Blanks(GridSize - first - days);
    assert |g| == |l|;
    forall i | 0 <= i < GridSize ensures g[i] == l[i] {
      if i < first {
        assert l[i] == Blanks(first)[i];
      } else if i < first + days {
        assert l[i] == DayRun(days)[i - first];
      } else {
        assert l[i] == Blanks(GridSize - first - days)[i - first - days];
      }
    }
  }

  /** Day `d` of the month sits at index `first + d - 1`, and only there. */
  lemma CellOfDay(first: int, days: int, d: int)
    requires 0 <= first < 7 && 28 <= days <= 31 && 1 <= d <= days
    ensures 0 <= first + d - 1 < GridSize && Grid(first, days)[first + d - 1] == Some(d)
    ensures forall i :: 0 <= i < GridSize && Grid(first, days)[i] == Some(d) ==> i == first + d - 1
  {
  }

  /** `todoDate.getDate() === day && todoDate.getMonth() === month &&
      todoDate.getFullYear() === year`; an invalid date's getters give NaN,
      which equals nothing. */
  predicate DueOn(t: Todo, day: int, month: int, year: int)
    ensures DueOn(t, day, month, year) ==> 0 <= month < 12 && 1 <= day <= DaysInMonth(year, month)
  {
    t.dueDate.At? && t.dueDate.date.day == day && t.dueDate.date.month == month
    && t.dueDate.date.year == year
  }

  /** `getTodosForDay(day)`: in order, the todos due on that day of the shown month. */
  function TodosForDay(todos: seq<Todo>, day: int, month: int, year: int): (r: seq<Todo>)
    ensures Seqs.IsSubsequence(r, todos)
    ensures forall t :: t in r <==> t in todos && DueOn(t, day, month, year)
    ensures forall t :: multiset(r)[t] == if DueOn(t, day, month, year) then multiset(todos)[t] else 0
  {
    Seqs.FilterIsSubsequence(todos, t => DueOn(t, day, month, year));
    Seqs.FilterMultiset(todos, t => DueOn(t, day, month, year));
    Seqs.Filter(todos, t => DueOn(t, day, month, year))
  }

  /** A todo due in the shown month lands in the bucket of exactly one cell
      of the grid, the one of its own day; a todo due in any other month, or
      with an invalid date, lands in none. */
  lemma BucketedOnce(todos: seq<Todo>, t: Todo, year: int, month: int)
    requires t in todos && 0 <= month < 12 && !(0 <= year <= 99)
    ensures var g := Grid(FirstWeekday(year, month), DaysInMonthOf(year, month));
            forall i :: 0 <= i < GridSize && g[i].Some? ==>
              (t in TodosForDay(todos, g[i].value, month, year)
               <==> t.dueDate.At? && t.dueDate.date.year == year && t.dueDate.date.month == month
                    && i == FirstWeekday(year, month) + t.dueDate.date.day - 1)
    ensures t.dueDate.At? && t.dueDate.date.year == year && t.dueDate.date.month == month ==>
              var g := Grid(FirstWeekday(year, month), DaysInMonthOf(year, month));
              var i := FirstWeekday(year, month) + t.dueDate.date.day - 1;
              0 <= i < GridSize && g[i] == Some(t.dueDate.date.day)
  {
    DaysInMonthOfIsLength(year, month);
    if t.dueDate.At? && t.dueDate.date.year == year && t.dueDate.date.month == month {
      CellOfDay(FirstWeekday(year, month), DaysInMonthOf(year, month), t.dueDate.date.day);
    }
  }

  /** `day?.toString() || 'empty'`: a day cell's droppable id. */
  function DroppableId(day: Option<int>): (id: string)
    ensures id != ""
  {
    match day
    case None => "empty"
    case Some(d) => IntToString(d)
  }

  /** `parseInt` of a cell's id gives back its day; the padding id reads as NaN. */
  lemma DroppableIdRoundTrip(day: Option<int>)
    ensures ParseInt(DroppableId(day)) == if day.Some? then Some(day.value) else None
  {
    if day.Some? {
      ParseIntOfIntToString(day.value);
    } else {
      assert "empty"[0] == 'e';
      assert TrimStart("empty") == "empty";
    }
  }

  /** One `onUpdateTodo(id, updates)` call. */
  datatype UpdateRequest = UpdateRequest(id: string, updates: TodoPatch)

  /** The date a drop on `overId` chooses:
      `new Date(year, month, parseInt(overId))`; NaN gives an invalid date. */
  function DropDate(overId: string, year: int, month: int): (r: JsDate)
    ensures r.At? <==> ParseInt(overId).Some?
  {
    match ParseInt(overId)
    case None => InvalidDate
    case Some(day) => At(NewDate(year, month, day))
  }

  /** The update `handleDragEnd` issues for dragging `activeId` onto `over`
      while month `month` of `year` is shown: none without a drop target or
      for an unknown todo, otherwise one new due date. */
  function DropUpdate(todos: seq<Todo>, activeId: string, over: Option<string>, year: int, month: int)
    : (r: Option<UpdateRequest>)
    ensures r.None? <==> over.None? || FindById(todos, activeId).None?
    ensures r.Some? ==> r.value == UpdateRequest(activeId, EmptyPatch.(dueDate := Some(DropDate(over.value, year, month))))
  {
    if over.None? then None
    else if FindById(todos, activeId).None? then None
    else Some(UpdateRequest(activeId, EmptyPatch.(dueDate := Some(DropDate(over.value, year, month)))))
  }

  /** `new Date(y, m, d)` of a real date is that date at midnight. */
  lemma NewDateOfValid(y: int, m: int, d: int)
    requires ValidDate(y, m, d) && !(0 <= y <= 99)
    ensures NewDate(y, m, d) == DateTime(y, m, d, 0, 0, 0, 0)
  {
    MakeDateTimeOfValid(DateTime(y, m, d, 0, 0, 0, 0));
  }

  /** Dropping a known todo on the cell of day `d` of the shown month
      reschedules it to midnight of that day. */
  lemma DropOnDayCell(todos: seq<Todo>, activeId: string, d: int, year: int, month: int)
    requires FindById(todos, activeId).Some?
    requires ValidDate(year, month, d) && !(0 <= year <= 99)
    ensures DropUpdate(todos, activeId, Some(DroppableId(Some(d))), year, month)
            == Some(UpdateRequest(activeId, EmptyPatch.(dueDate := Some(At(DateTime(year, month, d, 0, 0, 0, 0))))))
  {
    DroppableIdRoundTrip(Some(d));
    NewDateOfValid(year, month, d);
  }

  /** A drop on an id that does not start with a number still issues the
      update, with an invalid due date. */
  lemma DropOnPaddingId(todos: seq<Todo>, activeId: string, year: int, month: int)
    requires FindById(todos, activeId).Some?
    ensures DropUpdate(todos, activeId, Some(DroppableId(None)), year, month)
            == Some(UpdateRequest(activeId, EmptyPatch.(dueDate := Some(InvalidDate))))
  {
    DroppableIdRoundTrip(None);
  }
}
