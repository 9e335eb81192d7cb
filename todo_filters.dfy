/** The filter engine of the todo list (src/lib/hooks/useTodoFilters.ts):
    three independent optional filters, ANDed, applied with an
    order-preserving `filter`. `now` stands for the `new Date()` read while
    filtering. */
module TodoFilters {
  import opened Wrappers
  import opened Dates
  import opened TodoTypes
  import Seqs

  datatype TimeFrame = Today | Week | Month
  datatype Status = Completed | Active

  /** The three filter values; None is `null`. */
  datatype Filters = Filters(category: Option<string>, timeFrame: Option<TimeFrame>, status: Option<Status>)

  const Unfiltered := Filters(None, None, None)

  /** `!categoryFilter || todo.category === categoryFilter`: an unset or
      empty category filter lets everything through. */
  predicate MatchesCategory(category: Option<string>, t: Todo)
    ensures category.Some? && category.value != "" ==> (MatchesCategory(category, t) <==> t.category == category.value)
  {
    category.None? || category.value == "" || t.category == category.value
  }

  /** `!statusFilter || (statusFilter === 'completed' ? todo.completed : !todo.completed)`. */
  predicate MatchesStatus(status: Option<Status>, t: Todo)
    ensures status.Some? ==> (MatchesStatus(status, t) <==> t.completed == (status.value == Completed))
  {
    match status
    case None => true
    case Some(Completed) => t.completed
    case Some(Active) => !t.completed
  }

  /** End of the week window: `weekFromNow.setDate(today.getDate() + 7)`,
      exactly seven days of 24 hours after now. */
  function WeekEnd(now: LocalDate): (r: LocalDate)
    ensures TimeValue(r) == TimeValue(now) + 7 * MsPerDay
  {
    SetDate(now, now.day + 7)
  }

  /** End of the month window: `monthFromNow.setMonth(today.getMonth() + 1)`,
      at now's clock time and strictly after now. */
  function MonthEnd(now: LocalDate): (r: LocalDate)
    ensures r.hour == now.hour && r.minute == now.minute && r.second == now.second && r.ms == now.ms
    ensures TimeValue(now) < TimeValue(r)
  {
    MonthLater(now);
    SetMonth(now, now.month + 1)
  }

  /** One `setMonth` step forward lands strictly later. */
  lemma MonthLater(now: LocalDate)
    ensures TimeValue(now) < TimeValue(SetMonth(now, now.month + 1))
  {
    var r := SetMonth(now, now.month + 1);
    MonthStepAhead(now);
    MonthCountOrder(now.year, now.month, r.year, r.month);
    assert LexBefore(now, r);
    TimeOrderIsLexicographic(now, r);
  }

  /** One `setMonth` step forward lands one or two months later. */
  lemma MonthStepAhead(now: LocalDate)
    ensures var r := SetMonth(now, now.month + 1);
            r.year * 12 + r.month > now.year * 12 + now.month
  {
    var r := SetMonth(now, now.month + 1);
    var t := RollMonth(now.year, now.month + 1);
    if now.day <= DaysInMonth(t.year, t.month) {
      SetMonthSameDay(now, now.month + 1);
      assert r.year == t.year && r.month == t.month;
    } else {
      SetMonthOverflow(now, now.month + 1);
      var n := NextMonth(t.year, t.month);
      assert r.year == n.year && r.month == n.month;
      assert n.year * 12 + n.month == t.year * 12 + t.month + 1;
    }
  }

  lemma MonthCountOrder(y1: int, m1: int, y2: int, m2: int)
    requires 0 <= m1 < 12 && 0 <= m2 < 12 && y1 * 12 + m1 < y2 * 12 + m2
    ensures y1 < y2 || (y1 == y2 && m1 < m2)
  {
  }

  /** The time-frame test. An invalid due date never matches: its
      `toDateString()` is "Invalid Date" and comparisons with NaN are false. */
  predicate MatchesTimeFrame(timeFrame: Option<TimeFrame>, due: JsDate, now: LocalDate)
    ensures timeFrame.None? ==> MatchesTimeFrame(timeFrame, due, now)
    ensures MatchesTimeFrame(timeFrame, due, now) && timeFrame.Some? ==> due.At?
    ensures MatchesTimeFrame(timeFrame, due, now) && timeFrame == Some(Week) ==>
              TimeValue(now) <= TimeValue(due.date) <= TimeValue(now) + 7 * MsPerDay
    ensures MatchesTimeFrame(timeFrame, due, now) && timeFrame == Some(Month) ==>
              TimeValue(now) <= TimeValue(due.date)
  {
    match timeFrame
    case None => true
    case Some(frame) =>
      match due
      case InvalidDate => false
      case At(d) =>
        match frame
        case Today => SameCalendarDay(d, now)
        case Week => TimeValue(now) <= TimeValue(d) <= TimeValue(WeekEnd(now))
        case Month => TimeValue(now) <= TimeValue(d) <= TimeValue(MonthEnd(now))
  }

  /** The predicate passed to `todos.filter`. */
  predicate Keep(f: Filters, now: LocalDate, t: Todo)
    ensures f == Unfiltered ==> Keep(f, now, t)
    ensures Keep(f, now, t) && f.timeFrame.Some? ==> t.dueDate.At?
  {
    MatchesCategory(f.category, t) && MatchesStatus(f.status, t) && MatchesTimeFrame(f.timeFrame, t.dueDate, now)
  }

  /** `filteredTodos`: the todos that pass all three filters, in their
      original order and unaltered. */
  function FilteredTodos(todos: seq<Todo>, f: Filters, now: LocalDate): (r: seq<Todo>)
    ensures Seqs.IsSubsequence(r, todos)
    ensures forall t :: t in r <==> t in todos && Keep(f, now, t)
    ensures forall t :: multiset(r)[t] == if Keep(f, now, t) then multiset(todos)[t] else 0
  {
    Seqs.FilterIsSubsequence(todos, t => Keep(f, now, t));
    Seqs.FilterMultiset(todos, t => Keep(f, now, t));
    Seqs.Filter(todos, t => Keep(f, now, t))
  }

  /** With no filter set, every todo is kept, in order. */
  lemma UnfilteredIsIdentity(todos: seq<Todo>, now: LocalDate)
    ensures FilteredTodos(todos, Unfiltered, now) == todos
  {
    Seqs.FilterKeepsAll(todos, t => Keep(Unfiltered, now, t));
  }

  function CategoryTest(category: Option<string>): Todo -> bool {
    t => MatchesCategory(category, t)
  }

  function StatusTest(status: Option<Status>): Todo -> bool {
    t => MatchesStatus(status, t)
  }

  function TimeFrameTest(timeFrame: Option<TimeFrame>, now: LocalDate): Todo -> bool {
    (t: Todo) => MatchesTimeFrame(timeFrame, t.dueDate, now)
  }

  /** The three filters act independently: applying them one after the
      other gives the combined result. */
  lemma FiltersCompose(todos: seq<Todo>, f: Filters, now: LocalDate)
    ensures FilteredTodos(todos, f, now)
            == Seqs.Filter(Seqs.Filter(Seqs.Filter(todos, CategoryTest(f.category)),
                                       StatusTest(f.status)),
                           TimeFrameTest(f.timeFrame, now))
  {
    Seqs.FilterThree(todos, CategoryTest(f.category), StatusTest(f.status),
                     TimeFrameTest(f.timeFrame, now), t => Keep(f, now, t));
  }

  /** A status filter alone keeps exactly the todos whose `completed` flag
      matches it, in order. */
  lemma StatusOnly(todos: seq<Todo>, now: LocalDate, s: Status)
    ensures FilteredTodos(todos, Filters(None, None, Some(s)), now)
            == Seqs.Filter(todos, (t: Todo) => t.completed == (s == Completed))
  {
    Seqs.FilterCongruent(todos, t => Keep(Filters(None, None, Some(s)), now, t),
                         (t: Todo) => t.completed == (s == Completed));
  }

  /** A set category filter keeps exactly the todos of that category. */
  lemma CategoryOnly(todos: seq<Todo>, now: LocalDate, c: string)
    requires c != ""
    ensures FilteredTodos(todos, Filters(Some(c), None, None), now)
            == Seqs.Filter(todos, (t: Todo) => t.category == c)
  {
    Seqs.FilterCongruent(todos, t => Keep(Filters(Some(c), None, None), now, t),
                         (t: Todo) => t.category == c);
  }

  /** 'today' keeps a due date exactly when it lies in the 24 hours that
      start at the local midnight of now's day, at any hour of that day. */
  lemma TodayIsSameDayBlock(now: LocalDate, due: LocalDate)
    ensures MatchesTimeFrame(Some(Today), At(due), now)
            <==> TimeValue(due) / MsPerDay == TimeValue(now) / MsPerDay
  {
    SameDayIffSameBlock(due, now);
  }

  /** 'week' keeps a due date exactly when it is at least now and at most
      seven days of 24 hours after now. */
  lemma WeekWindow(now: LocalDate, due: LocalDate)
    ensures MatchesTimeFrame(Some(Week), At(due), now)
            <==> 0 <= TimeValue(due) - TimeValue(now) <= 7 * MsPerDay
  {
  }

  /** A todo due before now, even earlier on the same day, is outside the
      week and month windows. */
  lemma EarlierIsExcluded(now: LocalDate, due: LocalDate)
    requires LexBefore(due, now)
    ensures !MatchesTimeFrame(Some(Week), At(due), now)
    ensures !MatchesTimeFrame(Some(Month), At(due), now)
  {
    TimeOrderIsLexicographic(due, now);
  }

  /** The month window ends at the same day and time of the next month
      when that day exists there: it rolls with now and does not stop at
      the end of the calendar month. */
  lemma MonthWindowEnd(now: LocalDate)
    requires now.day <= 28
    ensures var e := MonthEnd(now);
            && e.year * 12 + e.month == now.year * 12 + now.month + 1
            && e.day == now.day
            && e.hour == now.hour && e.minute == now.minute && e.second == now.second && e.ms == now.ms
  {
    SetMonthShift(now, 1);
  }

  /** From January 31st the window overflows February and ends on
      March 2nd (2024 is a leap year). */
  lemma MonthWindowOverflow()
    ensures MonthEnd(DateTime(2024, 0, 31, 9, 0, 0, 0)) == DateTime(2024, 2, 2, 9, 0, 0, 0)
  {
    var now := DateTime(2024, 0, 31, 9, 0, 0, 0);
    assert RollMonth(2024, 1) == Ymd(2024, 1, 1);
    assert DaysInMonth(2024, 1) == 29;
    SetMonthOverflow(now, 1);
  }

  /** A todo with an invalid due date survives only when no time frame is set. */
  lemma InvalidDueOnlyWithoutTimeFrame(f: Filters, now: LocalDate, t: Todo)
    requires t.dueDate.InvalidDate? && Keep(f, now, t)
    ensures f.timeFrame.None?
  {
  }
}
