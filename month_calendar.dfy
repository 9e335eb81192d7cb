/** The navigable month calendar of src/components/calendar/CalendarView.tsx:
    the shown month (`currentDate`) and the todo being dragged
    (`activeTodo`) are its state; the grid, the buckets and the today mark
    are derived from them. `todos` is the list passed in by the parent and
    `today` the `new Date()` read while rendering. */
module MonthCalendarView {
  import opened Wrappers
  import opened Dates
  import opened TodoTypes
  import opened CalendarGrid

  datatype Direction = Prev | Next

  /** The month step of `navigateMonth`. */
  function Step(direction: Direction): int {
    if direction == Next then 1 else -1
  }

  /** A year and a month in 0..11 are fixed by their month count. */
  lemma MonthCountDetermines(y1: int, m1: int, y2: int, m2: int)
    requires 0 <= m1 < 12 && 0 <= m2 < 12 && y1 * 12 + m1 == y2 * 12 + m2
    ensures y1 == y2 && m1 == m2
  {
    assert (y1 * 12 + m1) / 12 == y1 && (y2 * 12 + m2) / 12 == y2;
  }

  class MonthCalendar {
    var currentDate: LocalDate
    var activeTodo: Option<Todo>

    /** `useState(new Date())` and `useState(null)`. */
    constructor(now: LocalDate)
      ensures currentDate == now && activeTodo == None
    {
      currentDate := now;
      activeTodo := None;
    }

    /** `calendar`: the 42 cells of the shown month, its days ascending from
        the cell of the 1st's weekday. */
    function Calendar(): (r: seq<Option<int>>)
      reads this
      ensures var first, days := FirstWeekday(currentDate.year, currentDate.month),
                                 DaysInMonth(ConstructorYear(currentDate.year), currentDate.month);
              r == Blanks(first) + DayRun(days) + Blanks(GridSize - first - days)
    {
      DaysInMonthOfIsLength(currentDate.year, currentDate.month);
      GridLayout(FirstWeekday(currentDate.year, currentDate.month), DaysInMonthOf(currentDate.year, currentDate.month));
      Grid(FirstWeekday(currentDate.year, currentDate.month), DaysInMonthOf(currentDate.year, currentDate.month))
    }

    /** `todos={day ? getTodosForDay(day) : []}`. */
    function TodosForCell(todos: seq<Todo>, day: Option<int>): (r: seq<Todo>)
      reads this
      ensures day.None? ==> r == []
      ensures forall t :: t in r <==> day.Some? && t in todos && DueOn(t, day.value, currentDate.month, currentDate.year)
    {
      match day
      case None => []
      case Some(d) => TodosForDay(todos, d, currentDate.month, currentDate.year)
    }

    /** The `isToday` prop of a cell. */
    predicate IsTodayAt(day: Option<int>, today: LocalDate)
      reads this
      ensures IsTodayAt(day, today) ==>
                day.Some? && 1 <= day.value <= DaysInMonth(currentDate.year, currentDate.month)
    {
      day == Some(today.day) && currentDate.month == today.month && currentDate.year == today.year
    }

    /** Exactly one cell is marked as today, the one of today's day, when
        the shown month is today's month; none otherwise. */
    lemma TodayMarkedOnce(today: LocalDate)
      requires !(0 <= currentDate.year <= 99)
      ensures forall i :: 0 <= i < GridSize ==>
                (IsTodayAt(Calendar()[i], today)
                 <==> currentDate.month == today.month && currentDate.year == today.year
                      && i == FirstWeekday(currentDate.year, currentDate.month) + today.day - 1)
    {
      var first := FirstWeekday(currentDate.year, currentDate.month);
      DaysInMonthOfIsLength(currentDate.year, currentDate.month);
      if currentDate.month == today.month && currentDate.year == today.year {
        CellOfDay(first, DaysInMonthOf(currentDate.year, currentDate.month), today.day);
      }
    }

    /** `onAddTask` of a day cell: the cell's task with its due date
        replaced by midnight of that day of the shown month. */
    function AddTaskPayload(task: TodoPatch, day: int): (r: TodoPatch)
      reads this
      ensures r.(dueDate := task.dueDate) == task
      ensures r.dueDate == Some(At(NewDate(currentDate.year, currentDate.month, day)))
    {
      task.(dueDate := Some(At(NewDate(currentDate.year, currentDate.month, day))))
    }

    /** `handleDragStart`: remember the dragged todo when it is known. */
    method HandleDragStart(todos: seq<Todo>, id: string)
      modifies this
      ensures currentDate == old(currentDate)
      ensures activeTodo == if FindById(todos, id).Some? then FindById(todos, id) else old(activeTodo)
    {
      var todo := FindById(todos, id);
      if todo.Some? {
        activeTodo := todo;
      }
    }

    /** `handleDragEnd`: always forget the dragged todo; return the update
        passed to `onUpdateTodo`, if any. */
    method HandleDragEnd(todos: seq<Todo>, activeId: string, over: Option<string>)
      returns (update: Option<UpdateRequest>)
      modifies this
      ensures activeTodo == None && currentDate == old(currentDate)
      ensures update == DropUpdate(todos, activeId, over, currentDate.year, currentDate.month)
    {
      activeTodo := None;
      if over.None? {
        return None;
      }
      var todo := FindById(todos, activeId);
      if todo.None? {
        return None;
      }
      var newDate := DropDate(over.value, currentDate.year, currentDate.month);
      update := Some(UpdateRequest(activeId, EmptyPatch.(dueDate := Some(newDate))));
    }

    /** `navigateMonth`: `setMonth(getMonth() ± 1)` on a copy of the shown date. */
    method NavigateMonth(direction: Direction)
      modifies this
      ensures currentDate == SetMonth(old(currentDate), old(currentDate).month + Step(direction))
      ensures activeTodo == old(activeTodo)
    {
      var newDate := SetMonth(currentDate, currentDate.month + Step(direction));
      currentDate := newDate;
    }
  }

  /** `onEditTask` of a day cell: re-send the whole todo as its own update. */
  function EditTaskRequest(todos: seq<Todo>, todoId: string): (r: Option<UpdateRequest>)
    ensures r.Some? <==> FindById(todos, todoId).Some?
    ensures r.Some? ==> r.value.id == todoId && r.value.updates == PatchOf(FindById(todos, todoId).value)
  {
    match FindById(todos, todoId)
    case None => None
    case Some(t) => Some(UpdateRequest(todoId, PatchOf(t)))
  }

  /** Applied by the store, that edit changes nothing but `updatedAt`. */
  lemma EditChangesOnlyUpdatedAt(todos: seq<Todo>, todoId: string, now: LocalDate)
    requires EditTaskRequest(todos, todoId).Some?
    requires forall i, j :: 0 <= i < j < |todos| ==> todos[i].id != todos[j].id
    ensures var r := UpdateWhere(todos, todoId, EditTaskRequest(todos, todoId).value.updates, now);
            && |r| == |todos|
            && forall k :: 0 <= k < |todos| ==> r[k] == if todos[k].id == todoId then todos[k].(updatedAt := now) else todos[k]
  {
    var t := FindById(todos, todoId).value;
    forall k | 0 <= k < |todos| && todos[k].id == todoId
      ensures todos[k] == t
    {
    }
  }

  /** Moving one month keeps the day of month and the clock time when that
      day exists in every month (days 1..28). */
  lemma NavigateKeepsDay(d: LocalDate, direction: Direction)
    requires d.day <= 28
    ensures var r := SetMonth(d, d.month + Step(direction));
            && r.year * 12 + r.month == d.year * 12 + d.month + Step(direction)
            && r.day == d.day
            && r.hour == d.hour && r.minute == d.minute && r.second == d.second && r.ms == d.ms
  {
    SetMonthShift(d, Step(direction));
  }

  /** Next then previous comes back to the same date for days 1..28. */
  lemma NextThenPrev(d: LocalDate)
    requires d.day <= 28
    ensures var e := SetMonth(d, d.month + 1);
            SetMonth(e, e.month - 1) == d
  {
    SetMonthSameDay(d, d.month + 1);
    var e := SetMonth(d, d.month + 1);
    var u := RollMonth(e.year, e.month - 1);
    SetMonthSameDay(e, e.month - 1);
    MonthCountDetermines(u.year, u.month, d.year, d.month);
  }

  /** From January 31st, 2024, "next" lands on March 2nd (February has 29
      days) and "previous" from there on February 2nd: navigation does not
      always undo itself. */
  lemma NavigateFromMonthEnd()
    ensures SetMonth(DateTime(2024, 0, 31, 0, 0, 0, 0), 1) == DateTime(2024, 2, 2, 0, 0, 0, 0)
    ensures SetMonth(DateTime(2024, 2, 2, 0, 0, 0, 0), 1) == DateTime(2024, 1, 2, 0, 0, 0, 0)
  {
    assert RollMonth(2024, 1) == Ymd(2024, 1, 1);
    assert DaysInMonth(2024, 1) == 29;
    SetMonthOverflow(DateTime(2024, 0, 31, 0, 0, 0, 0), 1);
    SetMonthSameDay(DateTime(2024, 2, 2, 0, 0, 0, 0), 1);
  }
}
