/** The calendar of src/components/CalendarView.tsx, the one the todo list
    mounts: it has no state and always shows the month of `today`, the
    `new Date()` read while rendering. */
module CurrentMonthView {
  import opened Wrappers
  import opened Dates
  import opened TodoTypes
  import opened CalendarGrid

  /** `calendar` for today's month. */
  function CurrentGrid(today: LocalDate): (r: seq<Option<int>>)
    ensures var first, days := FirstWeekday(today.year, today.month),
                               DaysInMonth(ConstructorYear(today.year), today.month);
            r == Blanks(first) + DayRun(days) + Blanks(GridSize - first - days)
  {
    DaysInMonthOfIsLength(today.year, today.month);
    GridLayout(FirstWeekday(today.year, today.month), DaysInMonthOf(today.year, today.month));
    Grid(FirstWeekday(today.year, today.month), DaysInMonthOf(today.year, today.month))
  }

  /** `todos={day ? getTodosForDay(day) : []}`, matched against today's month and year. */
  function CellTodos(todos: seq<Todo>, today: LocalDate, day: Option<int>): (r: seq<Todo>)
    ensures forall t :: t in r <==> day.Some? && t in todos && DueOn(t, day.value, today.month, today.year)
  {
    match day
    case None => []
    case Some(d) => TodosForDay(todos, d, today.month, today.year)
  }

  /** `isToday={day === today.getDate()}`: only the day number is compared. */
  predicate IsTodayCell(day: Option<int>, today: LocalDate)
    ensures IsTodayCell(day, today) ==> day.Some? && 1 <= day.value <= DaysInMonth(today.year, today.month)
  {
    day == Some(today.day)
  }

  /** Since the grid is always today's month, comparing the day number alone
      marks exactly one cell, the one of today. */
  lemma TodayMarkedOnce(today: LocalDate)
    requires !(0 <= today.year <= 99)
    ensures forall i :: 0 <= i < GridSize ==>
              (IsTodayCell(CurrentGrid(today)[i], today) <==> i == FirstWeekday(today.year, today.month) + today.day - 1)
  {
    DaysInMonthOfIsLength(today.year, today.month);
    CellOfDay(FirstWeekday(today.year, today.month), DaysInMonthOf(today.year, today.month), today.day);
  }

  /** A todo due in another month or year, or with an invalid date, appears
      in no cell. */
  lemma OtherMonthsNotShown(todos: seq<Todo>, today: LocalDate, t: Todo)
    requires !(t.dueDate.At? && t.dueDate.date.month == today.month && t.dueDate.date.year == today.year)
    ensures forall i :: 0 <= i < GridSize ==> t !in CellTodos(todos, today, CurrentGrid(today)[i])
  {
  }

  /** `handleDragEnd`: the update passed to `onUpdateTodo`, if any; the new
      date is in today's month and year. */
  function HandleDragEnd(todos: seq<Todo>, activeId: string, over: Option<string>, today: LocalDate)
    : (r: Option<UpdateRequest>)
    ensures r.None? <==> over.None? || FindById(todos, activeId).None?
    ensures r.Some? ==> r.value.id == activeId
                        && r.value.updates == EmptyPatch.(dueDate := Some(DropDate(over.value, today.year, today.month)))
  {
    DropUpdate(todos, activeId, over, today.year, today.month)
  }

  /** Dropping a known todo on the cell of day `d` reschedules it to
      midnight of day `d` of today's month. */
  lemma DropOnDay(todos: seq<Todo>, activeId: string, d: int, today: LocalDate)
    requires FindById(todos, activeId).Some?
    requires 1 <= d <= DaysInMonth(today.year, today.month) && !(0 <= today.year <= 99)
    ensures HandleDragEnd(todos, activeId, Some(DroppableId(Some(d))), today)
            == Some(UpdateRequest(activeId, EmptyPatch.(dueDate := Some(At(DateTime(today.year, today.month, d, 0, 0, 0, 0))))))
  {
    DropOnDayCell(todos, activeId, d, today.year, today.month);
  }
}
