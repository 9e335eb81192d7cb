/** The component-local todo list of src/hooks/useTodos.ts: the list is
    its state, replaced by each operation; "today" and "upcoming" are
    filters of it. `now` stands for `new Date()` and `newId` for
    `crypto.randomUUID()`. */
module LocalTodoList {
  import opened Wrappers
  import opened Dates
  import opened TodoTypes
  import opened TodoFilters
  import Seqs

  /** The todo `addTodo` starts from before the supplied fields are spread over it. */
  function Defaults(newId: string, now: LocalDate): (t: Todo)
    ensures t.id == newId && t.title == "" && t.description == "" && t.notes == ""
    ensures t.priority == Medium && t.category == Personal.Name() && !t.completed
    ensures t.dueDate == At(now) && t.createdAt == now && t.updatedAt == now
    ensures t.recurring.None? && t.subtasks == []
  {
    Todo(newId, "", "", Medium, Personal.Name(), At(now), false, None, [], "", now, now)
  }

  /** `prev.map(todo => todo.id === id ? { ...todo, completed: !todo.completed, updatedAt: now } : todo)`. */
  function ToggleWhere(todos: seq<Todo>, id: string, now: LocalDate): (r: seq<Todo>)
    ensures |r| == |todos|
    ensures forall k :: 0 <= k < |todos| ==>
              r[k] == if todos[k].id == id then todos[k].(completed := !todos[k].completed, updatedAt := now)
                      else todos[k]
  {
    Seqs.Map(todos, (t: Todo) => if t.id == id then t.(completed := !t.completed, updatedAt := now) else t)
  }

  /** `Math.ceil(a / b)` for a positive divisor. */
  function CeilDiv(a: int, b: int): (r: int)
    requires b > 0
    ensures b * (r - 1) < a <= b * r
  {
    -((-a) / b)
  }

  /** The `todayTodos` test: the due date is on now's calendar day. */
  predicate DueToday(t: Todo, now: LocalDate)
    ensures DueToday(t, now) <==> MatchesTimeFrame(Some(Today), t.dueDate, now)
  {
    t.dueDate.At? && SameCalendarDay(t.dueDate.date, now)
  }

  /** The `upcomingTodos` test: the due date is 1 to 7 days ahead, counting
      part of a day as a whole one. */
  predicate DueUpcoming(t: Todo, now: LocalDate)
    ensures DueUpcoming(t, now) ==> t.dueDate.At? && TimeValue(now) < TimeValue(t.dueDate.date)
  {
    t.dueDate.At? &&
    var diffDays := CeilDiv(TimeValue(t.dueDate.date) - TimeValue(now), MsPerDay);
    diffDays > 0 && diffDays <= 7
  }

  class LocalTodos {
    var todos: seq<Todo>

    /** The list as loaded at mount. */
    constructor(initial: seq<Todo>)
      ensures todos == initial
    {
      todos := initial;
    }

    /** `todayTodos`. */
    function TodayTodos(now: LocalDate): (r: seq<Todo>)
      reads this
      ensures Seqs.IsSubsequence(r, todos)
      ensures forall t :: t in r <==> t in todos && DueToday(t, now)
    {
      Seqs.FilterIsSubsequence(todos, t => DueToday(t, now));
      Seqs.Filter(todos, t => DueToday(t, now))
    }

    /** `upcomingTodos`. */
    function UpcomingTodos(now: LocalDate): (r: seq<Todo>)
      reads this
      ensures Seqs.IsSubsequence(r, todos)
      ensures forall t :: t in r <==> t in todos && DueUpcoming(t, now)
    {
      Seqs.FilterIsSubsequence(todos, t => DueUpcoming(t, now));
      Seqs.Filter(todos, t => DueUpcoming(t, now))
    }

    /** `addTodo`: one new todo at the end, the defaults overridden by every
        supplied field, the id included. */
    method AddTodo(todoData: TodoPatch, newId: string, now: LocalDate)
      modifies this
      ensures todos == old(todos) + [Merge(Defaults(newId, now), todoData)]
    {
      var newTodo := Merge(Defaults(newId, now), todoData);
      todos := todos + [newTodo];
    }

    /** `toggleTodo`: every todo with the id flips its own flag. */
    method ToggleTodo(id: string, now: LocalDate)
      modifies this
      ensures todos == ToggleWhere(old(todos), id, now)
    {
      todos := ToggleWhere(todos, id, now);
    }

    /** `updateTodo`. */
    method UpdateTodo(id: string, updates: TodoPatch, now: LocalDate)
      modifies this
      ensures todos == UpdateWhere(old(todos), id, updates, now)
    {
      todos := UpdateWhere(todos, id, updates, now);
    }

    /** `deleteTodo`. */
    method DeleteTodo(id: string)
      modifies this
      ensures todos == RemoveId(old(todos), id)
    {
      todos := RemoveId(todos, id);
    }
  }

  /** The added todo carries exactly the supplied fields, and the defaults
      for the rest. */
  lemma AddedTodoFields(todoData: TodoPatch, newId: string, now: LocalDate)
    ensures var t := Merge(Defaults(newId, now), todoData);
            && t.id == Pick(todoData.id, newId)
            && t.title == Pick(todoData.title, "")
            && t.priority == Pick(todoData.priority, Medium)
            && t.category == Pick(todoData.category, "personal")
            && t.completed == Pick(todoData.completed, false)
            && t.dueDate == Pick(todoData.dueDate, At(now))
            && t.recurring == Pick(todoData.recurring, None)
            && t.description == Pick(todoData.description, "")
            && t.notes == Pick(todoData.notes, "")
            && t.subtasks == Pick(todoData.subtasks, [])
            && t.createdAt == Pick(todoData.createdAt, now)
            && t.updatedAt == Pick(todoData.updatedAt, now)
  {
  }

  /** "Today" is the 'today' filter of the filter engine. */
  lemma TodayIsTodayFilter(todos: seq<Todo>, now: LocalDate)
    ensures Seqs.Filter(todos, t => DueToday(t, now))
            == FilteredTodos(todos, Filters(None, Some(Today), None), now)
  {
    Seqs.FilterCongruent(todos, t => DueToday(t, now), t => Keep(Filters(None, Some(Today), None), now, t));
  }

  /** A todo is upcoming exactly when it is due strictly after now and at
      most seven days of 24 hours later. */
  lemma UpcomingWindow(t: Todo, now: LocalDate)
    requires t.dueDate.At?
    ensures DueUpcoming(t, now) <==> 0 < TimeValue(t.dueDate.date) - TimeValue(now) <= 7 * MsPerDay
  {
    var diff := TimeValue(t.dueDate.date) - TimeValue(now);
    var d := CeilDiv(diff, MsPerDay);
    if 0 < diff <= 7 * MsPerDay {
      assert MsPerDay * (d - 1) < 7 * MsPerDay;
    }
  }

  /** "Upcoming" is the 'week' filter without the todos due exactly now. */
  lemma UpcomingIsWeekButNow(t: Todo, now: LocalDate)
    ensures DueUpcoming(t, now)
            <==> (MatchesTimeFrame(Some(Week), t.dueDate, now) && TimeValue(t.dueDate.date) != TimeValue(now))
  {
    if t.dueDate.At? {
      UpcomingWindow(t, now);
      WeekWindow(now, t.dueDate.date);
    }
  }

  /** A todo due later today is both in "today" and in "upcoming". */
  lemma LaterTodayIsUpcoming(t: Todo, now: LocalDate)
    requires t.dueDate.At? && SameCalendarDay(t.dueDate.date, now) && LexBefore(now, t.dueDate.date)
    ensures DueToday(t, now) && DueUpcoming(t, now)
  {
    TimeOrderIsLexicographic(now, t.dueDate.date);
    SameDayIffSameBlock(now, t.dueDate.date);
    UpcomingWindow(t, now);
  }

  /** For todos with distinct ids the local toggle and the store's toggle
      (an update with the first match's negated flag) agree. */
  lemma ToggleAgreesWithUpdate(todos: seq<Todo>, id: string, now: LocalDate)
    requires FindById(todos, id).Some?
    requires forall i, j :: 0 <= i < j < |todos| ==> todos[i].id != todos[j].id
    ensures ToggleWhere(todos, id, now)
            == UpdateWhere(todos, id, EmptyPatch.(completed := Some(!FindById(todos, id).value.completed)), now)
  {
    var t := FindById(todos, id).value;
    forall k | 0 <= k < |todos| && todos[k].id == id
      ensures todos[k] == t
    {
    }
  }
}
