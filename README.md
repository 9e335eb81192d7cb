# Todo app core, modelled in Dafny

This project models the client-side logic of a React/Zustand todo application and proves properties of it. The modelled parts are:

- **Filter engine**: category, status and time-frame filters, ANDed. The filter panel's select-or-clear buttons set them.
- **Two calendar views**: a navigable one and a current-month one. Both build a 42-cell month grid, bucket todos by due day and turn a drag-and-drop into one due-date update.
- **Calendar day cell**: its droppable id and its two dialog flags.
- **Shared todo store**: fields `todos`, `isLoading` and `error`. Fetch, add, update, delete and toggle each make one backend round trip.
- **Component-local todo list**: with its "today" and "upcoming" lists.
- **Row mapper**: translates between storage rows and in-memory todos.
- **Two task forms**: the calendar's form and the quick-add bar.

Dates follow ECMAScript Date arithmetic (ECMA-262, section 21.4) on a local calendar without time zones:
- A date is a record of year, month (0-11), day, hour, minute, second and millisecond.
- Its time value counts milliseconds from 1970-01-01 00:00 on the proleptic Gregorian calendar.
- `new Date(y, m, d)`, `setDate`, `setMonth` and `setHours` normalise overflowing fields the way the standard's MakeDay/MakeDate do.
- `new Date(y, m, d)` also maps years 0..99 to 1900..1999.
- `Invalid Date` is a value of its own (`JsDate.InvalidDate`).

Strings follow the JavaScript operations the code calls: `trim`, `split`, `String(n)`, `parseInt` and `Number`.

State-changing code is modelled as classes:
- `Store.TodoStore`
- `LocalTodoList.LocalTodos`
- `MonthCalendarView.MonthCalendar` (`currentDate`, `activeTodo`)
- `CalendarDayCell.DayCell` (`showTaskForm`, `showTaskList`)
- `TaskFormModel.TaskForm`
- `QuickAddModel.QuickAdd`

Pure derivations are functions, and their properties are lemmas. Inputs the code reads from its environment are method or function parameters:
- the backend's answer (`Response`);
- `new Date()` (`now` or `today`);
- `crypto.randomUUID()` (`newId`);
- the authenticated user's id;
- the parent's `todos` list.

Two behaviours of the code are easy to misread, and the model states them as the code has them:
- **Time-frame windows**: 'today' compares calendar dates. 'week' runs from now to the same clock time 7 days later, and 'month' from now to one `setMonth` step later. Both windows are rolling: neither starts at midnight nor stops at the end of the calendar month.
- **Filter buttons**: two clicks on a filter button clear that filter only when its value was not already selected; otherwise they restore it (`FilterPanel.TwoClicks`).

## Model

| member | source | states |
|---|---|---|
| `TodoTypes.PatchOf` | src/components/calendar/CalendarView.tsx:184 | `{ ...todo }` as a partial todo: merged into any todo it yields that todo |
| `TodoTypes.NewTaskPatch` | src/components/todo/TaskForm.tsx:27-36 | The submitted task always has completed false, no subtasks, empty notes, and no id, recurrence or timestamps |
| `TodoTypes.MergeEmptyPatch` | src/lib/store/todoStore.ts:78 | Merging an empty partial object changes nothing |
| `TodoTypes.MergeIdempotent` | src/lib/store/todoStore.ts:78 | Merging the same partial object twice equals merging it once |
| `TodoTypes.FindById` | src/lib/store/todoStore.ts:109 | `find`: None iff no todo has the id; otherwise the first todo with it |
| `TodoTypes.UpdateWhere` | src/lib/store/todoStore.ts:76-81 | Same length. Todos with another id are unchanged. Each todo with the id becomes the merge with `updatedAt` set to now |
| `TodoTypes.UpdateWhereAbsent` | src/lib/store/todoStore.ts:76-81 | An update for an id that no todo has leaves the list equal |
| `TodoTypes.RemoveId` | src/lib/store/todoStore.ts:98-101 | Ordered subsequence. Keeps exactly the todos with another id. Every copy of a todo with another id survives, and afterwards no todo has the id |
| `DbRows.ApplyWrite` | src/lib/supabase/types.ts:43-57 | (storage side of an update) Every written column takes the written value and every column left out keeps its value; id, creation time and user id never change; `updated_at` is the written one |
| `TodoMapper.MapSubTaskFromDB` | src/lib/utils/todoMapper.ts:44-50 | Keeps exactly id, title and completed |
| `TodoMapper.MapTodoFromDB` | src/lib/utils/todoMapper.ts:7-25 | Scalar fields copied verbatim, user id dropped. Recurrence present iff the frequency is non-null; its end date present iff the end-date column is. Subtasks mapped in order, empty when absent |
| `TodoMapper.Truthy` | src/lib/utils/todoMapper.ts:29-32 | A string field is emitted iff it is present and non-empty, and then unchanged |
| `TodoMapper.MapTodoToDB` | src/lib/utils/todoMapper.ts:27-42 | Fails ("Invalid time value") iff the due date is an invalid date. Otherwise: `updated_at` is always now; title, description, category and notes are sent iff present and non-empty, and then hold the patch's own string; priority and completed (false included) are sent as given; the due date is the patch's valid date, or absent; the frequency is sent iff a recurrence is present, and then the frequency and end date are the recurrence's own; with no recurrence no end date is sent |
| `TodoMapper.RowRoundTrip` | src/lib/utils/todoMapper.ts:7-42 | Read a row, send the whole todo back as an update and apply it: the row comes back unchanged apart from `updated_at` |
| `TodoMapper.WriteThenReadIsMerge` | src/lib/utils/todoMapper.ts:27-42 | For a storable partial todo, write then read equals the store's in-memory merge with `updatedAt` set to now. Storable: sent strings non-empty, valid due date, recurrence with an end date |
| `TodoMapper.EndDateNotCleared` | src/lib/utils/todoMapper.ts:35-38 | A recurrence sent without an end date leaves a stored end date in place. The in-memory merge then has none |
| `TodoFilters.FilteredTodos` | src/lib/hooks/useTodoFilters.ts:10-38 | Order-preserving subsequence, with todos unaltered. A todo is kept iff the category, status and time-frame tests all hold, with every copy of it |
| `TodoFilters.UnfilteredIsIdentity` | src/lib/hooks/useTodoFilters.ts:5-38 | With all three filters unset the output equals the input |
| `TodoFilters.FiltersCompose` | src/lib/hooks/useTodoFilters.ts:37 | Filtering by all three equals filtering by category, then status, then time frame |
| `TodoFilters.StatusOnly` | src/lib/hooks/useTodoFilters.ts:12-13 | 'completed' keeps exactly the completed todos and 'active' exactly the others, in order |
| `TodoFilters.CategoryOnly` | src/lib/hooks/useTodoFilters.ts:11 | A non-empty category keeps exactly the todos of that category, in order |
| `TodoFilters.TodayIsSameDayBlock` | src/lib/hooks/useTodoFilters.ts:21-22 | 'today' keeps a date iff it lies in the 24 hours from local midnight of now's day, at any hour |
| `TodoFilters.WeekWindow` | src/lib/hooks/useTodoFilters.ts:24-27 | 'week' keeps a date iff now <= due <= now + 7 x 24 h |
| `TodoFilters.EarlierIsExcluded` | src/lib/hooks/useTodoFilters.ts:24-32 | A date before now, even earlier the same day, is outside 'week' and 'month' |
| `TodoFilters.MonthWindowEnd` | src/lib/hooks/useTodoFilters.ts:29-32 | For days 1..28 the month window ends one calendar month later, at the same day and clock time (rolling) |
| `TodoFilters.MonthWindowOverflow` | src/lib/hooks/useTodoFilters.ts:30-31 | From 2024-01-31 the window ends on 2024-03-02 (`setMonth` overflow) |
| `TodoFilters.MatchesCategory` | src/lib/hooks/useTodoFilters.ts:11 | A set, non-empty category filter accepts a todo iff the todo has that category; an unset or empty one accepts all (`CategoryOnly`) |
| `TodoFilters.MatchesStatus` | src/lib/hooks/useTodoFilters.ts:12-13 | A set status filter accepts a todo iff its `completed` flag matches 'completed'; unset accepts all (`StatusOnly`) |
| `TodoFilters.MatchesTimeFrame` | src/lib/hooks/useTodoFilters.ts:15-34 | No time frame accepts every todo. With a time frame, only a valid due date can pass; 'week' lies within now .. now + 7 x 24 h and 'month' is not before now (`TodayIsSameDayBlock`, `WeekWindow`, `MonthWindowEnd`) |
| `TodoFilters.Keep` | src/lib/hooks/useTodoFilters.ts:37 | With no filter set every todo is kept; with a time frame only todos with a valid due date are kept; `FilteredTodos` keeps exactly the todos it accepts |
| `TodoFilters.WeekEnd` | src/lib/hooks/useTodoFilters.ts:25-26 | The week window ends exactly 7 x 24 h after now |
| `TodoFilters.MonthEnd` | src/lib/hooks/useTodoFilters.ts:30-31 | The month window ends at now's clock time and strictly after now, so it is never empty |
| `TodoFilters.MonthLater` | src/lib/hooks/useTodoFilters.ts:30-31 | One `setMonth` step forward gives a later time value |
| `TodoFilters.MonthStepAhead` | src/lib/hooks/useTodoFilters.ts:30-31 | One `setMonth` step forward lands in a later month (the next one, or the one after on overflow) |
| `TodoFilters.InvalidDueOnlyWithoutTimeFrame` | src/lib/hooks/useTodoFilters.ts:15-34 | A todo with an invalid due date passes only when no time frame is set |
| `FilterPanel.Toggle` | src/components/FilterPanel.tsx:39-41 | Null iff the current value is the clicked one; otherwise the clicked value |
| `FilterPanel.OnClick` | src/components/FilterPanel.tsx:36-105 | A button changes only its own dimension. Its value is selected afterwards iff it was not before |
| `FilterPanel.TwoClicks` | src/components/FilterPanel.tsx:67-69 | Two clicks on one button leave its dimension unset, or restore it if that value was selected at the start |
| `FilterPanel.ButtonsCoverEveryValue` | src/components/FilterPanel.tsx:19-25 | Every category, time frame and status has a button, and no value has two |
| `Dates.DaysInMonth` | src/components/calendar/CalendarView.tsx:36-38 | 28..31 days; 29 iff February of a Gregorian leap year |
| `Dates.Weekday` | src/components/calendar/CalendarView.tsx:40-44 | `getDay`: 0..6 |
| `Dates.WeekdayAcrossMonthEnd` | src/components/calendar/CalendarView.tsx:40-44 | The first of the next month falls one weekday after the last day of this month, across year ends too |
| `Dates.WeekdayAnchors` | src/components/calendar/CalendarView.tsx:40-44 | 1 January 2024 is a Monday (1) and 29 February 2024 a Thursday (4), so the weekday numbering matches the calendar |
| `Dates.MakeDateTime` | src/components/calendar/CalendarView.tsx:83 | The time value equals (first day of the rolled month + d - 1) days + the time of day, with every field allowed to overflow |
| `Dates.NewDate` | src/components/calendar/CalendarDay.tsx:48 | `new Date(y, m, d)`: midnight of the normalised day, applying the years-0..99 rule |
| `Dates.DayZeroIsLastDayOfPreviousMonth` | src/components/calendar/CalendarView.tsx:37 | `new Date(y, m + 1, 0)` is the last day of month m |
| `Dates.SetDate` | src/lib/hooks/useTodoFilters.ts:25-26 | `setDate(d)` keeps the clock time and moves the time value by exactly (d - current day) x 24 h, overflow included |
| `Dates.SetMonth` | src/lib/hooks/useTodoFilters.ts:30-31 | `setMonth(m)` keeps the clock time and lands (day - 1) days after the first of the rolled month m |
| `Dates.SetHours` | src/components/todo/TaskForm.tsx:24-25 | `setHours(h, mi)`: local midnight of the same day plus h hours, mi minutes and the old seconds and milliseconds |
| `Dates.SetMonthShift` | src/components/calendar/CalendarView.tsx:90 | `setMonth(getMonth() + k)` keeps the clock. It keeps the day if that day exists in the target month, and otherwise overflows into the next month by the excess |
| `Dates.SetMonthSameDay` | src/components/calendar/CalendarView.tsx:90 | `setMonth(m)` when the day exists in the rolled target month: only year and month change |
| `Dates.SetMonthOverflow` | src/lib/hooks/useTodoFilters.ts:30-31 | `setMonth(m)` when the target month is too short: the next month, day reduced by the target month's length, clock kept |
| `Dates.NormalizeInMonthDayNumber` | src/components/calendar/CalendarView.tsx:83 | Day normalisation lands exactly d - 1 days after the first of the month, whatever the sign and size of d |
| `Dates.TimeOrderIsLexicographic` | src/lib/hooks/useTodoFilters.ts:27 | Date comparison by time value is the lexicographic order of the fields; equal time values mean equal dates |
| `Dates.SameDayIffSameBlock` | src/lib/hooks/useTodoFilters.ts:22 | Same calendar day iff same 24-hour block of time value |
| `Dates.MakeDateTimeOfValid` | src/components/calendar/CalendarView.tsx:83 | A valid date passes through the normalising constructor unchanged |
| `Dates.DayNumberInjective` | src/components/calendar/CalendarView.tsx:57 | Different valid calendar days have different day numbers |
| `Text.Trim` | src/components/todo/TaskForm.tsx:21 | `trim`: a slice of the input bordered only by whitespace; empty iff the input is all whitespace; its ends are not whitespace |
| `Text.ParseMagnitudeOfDigits` | src/components/calendar/CalendarView.tsx:78 | `parseInt` of a non-empty digit run is its decimal value |
| `Text.ParseInt` | src/components/calendar/CalendarView.tsx:78 | `parseInt` of a blank string is NaN; of a digit run, its decimal value (see also `ParseIntOfIntToString`) |
| `Text.Split` | src/components/todo/TaskForm.tsx:23 | At least one piece; no piece contains the separator |
| `Text.SplitTwoFields` | src/components/todo/TaskForm.tsx:23 | `"a:b".split(':')` is `[a, b]` when neither part contains ':' |
| `Text.IntToString` | src/components/calendar/CalendarDay.tsx:32 | `String(n)` is never empty |
| `Text.Number` | src/components/todo/TaskForm.tsx:23 | `Number` of a blank string is 0 |
| `Text.NumberOfDigits` | src/components/todo/TaskForm.tsx:23 | `Number` of a digit run is its decimal value |
| `Text.ParseIntOfIntToString` | src/components/calendar/CalendarView.tsx:78 | `parseInt(String(n))` is n for every integer |
| `Seqs.Filter` | src/lib/hooks/useTodoFilters.ts:10 | `filter`: no longer than the input; x is in the result iff it is in the input and passes |
| `Seqs.FilterMultiset` | src/lib/hooks/useTodoFilters.ts:10 | `filter` keeps as many copies of a passing element as the input has, and none of a failing one |
| `Seqs.FilterIsSubsequence` | src/lib/hooks/useTodoFilters.ts:10 | A filter's result is an ordered subsequence of its input |
| `Seqs.FilterKeepsAll` | src/lib/hooks/useTodoFilters.ts:10 | When every element passes, the filter is the identity |
| `Seqs.FilterThree` | src/lib/hooks/useTodoFilters.ts:37 | Three filters in a row equal one filter by their conjunction |
| `Seqs.Map` | src/lib/store/todoStore.ts:77 | `map`: same length, element k is f of element k |
| `CalendarGrid.DaysInMonthOf` | src/components/calendar/CalendarView.tsx:36-38 | `new Date(year, month + 1, 0).getDate()` is a day of the month, 1..31; `DaysInMonthOfIsLength` shows it is the month's length |
| `CalendarGrid.DueOn` | src/components/calendar/CalendarView.tsx:56-59 | Only a real date matches: a matching month is 0..11 and a matching day lies within that month; `TodosForDay` and `BucketedOnce` build on it |
| `CalendarGrid.DaysInMonthOfIsLength` | src/components/calendar/CalendarView.tsx:36-38 | `getDaysInMonth` is the length (28..31) of the shown month of the year `new Date` reads |
| `CalendarGrid.FirstWeekday` | src/components/calendar/CalendarView.tsx:40-44 | Weekday of the 1st, in 0..6 |
| `CalendarGrid.Grid` | src/components/calendar/CalendarView.tsx:49-52 | Exactly 42 cells; every non-null cell is in 1..daysInMonth |
| `CalendarGrid.GridLayout` | src/components/calendar/CalendarView.tsx:49-52 | The grid is firstDayOfMonth nulls, then days 1..daysInMonth ascending and contiguous, then nulls up to 42 cells |
| `CalendarGrid.CellOfDay` | src/components/calendar/CalendarView.tsx:50-51 | Day d is at index first + d - 1 and nowhere else |
| `CalendarGrid.TodosForDay` | src/components/calendar/CalendarView.tsx:54-61 | In order, exactly the todos whose due day, month and year equal the cell's day and the shown month and year, each copy kept |
| `CalendarGrid.BucketedOnce` | src/components/calendar/CalendarView.tsx:54-61 | A todo due in the shown month is listed in exactly one cell, the one of its day, and that cell exists. Other todos are in no cell |
| `CalendarGrid.DroppableId` | src/components/calendar/CalendarDay.tsx:31-33 | The day's decimal string, or "empty" for a padding cell; never empty |
| `CalendarGrid.DroppableIdRoundTrip` | src/components/calendar/CalendarDay.tsx:31-33 | `parseInt` of the id gives back the day for every day. The padding id reads as NaN |
| `CalendarGrid.DropDate` | src/components/calendar/CalendarView.tsx:78-83 | Valid iff `parseInt` of the target id is a number |
| `CalendarGrid.DropUpdate` | src/components/calendar/CalendarView.tsx:71-85 | No update iff there is no target or the dragged id is unknown. Otherwise exactly one update of that id whose only field is the due date |
| `CalendarGrid.NewDateOfValid` | src/components/calendar/CalendarView.tsx:83 | `new Date(y, m, d)` of a real date is that date at midnight |
| `CalendarGrid.DropOnDayCell` | src/components/calendar/CalendarView.tsx:71-85 | Dropping a known todo on day d's cell gives dueDate = (shown year, shown month, d) at midnight |
| `CalendarGrid.DropOnPaddingId` | src/components/calendar/CalendarView.tsx:78-84 | A target id that does not parse still produces the update, with an invalid date |
| `MonthCalendarView.MonthCalendar.constructor` | src/components/calendar/CalendarView.tsx:17-18 | Starts at the given date with nothing dragged |
| `MonthCalendarView.MonthCalendar.Calendar` | src/components/calendar/CalendarView.tsx:49-52 | The shown month's grid: padding, days 1..length, padding |
| `MonthCalendarView.MonthCalendar.TodosForCell` | src/components/calendar/CalendarView.tsx:172 | A padding cell gets no todos; a day cell gets exactly the todos due that day of the shown month |
| `MonthCalendarView.MonthCalendar.IsTodayAt` | src/components/calendar/CalendarView.tsx:167-171 | The `isToday` flag only marks a real day of the shown month; `TodayMarkedOnce` shows it marks at most one cell |
| `MonthCalendarView.MonthCalendar.TodayMarkedOnce` | src/components/calendar/CalendarView.tsx:167-171 | A cell is marked iff the shown month and year are today's and it is today's day cell. So at most one cell is marked |
| `MonthCalendarView.MonthCalendar.AddTaskPayload` | src/components/calendar/CalendarView.tsx:173-180 | The task is passed on with only its due date replaced, by midnight of that day of the shown month |
| `MonthCalendarView.MonthCalendar.HandleDragStart` | src/components/calendar/CalendarView.tsx:63-69 | `activeTodo` becomes the todo found by id; it is unchanged when the id is unknown |
| `MonthCalendarView.MonthCalendar.HandleDragEnd` | src/components/calendar/CalendarView.tsx:71-85 | Always clears `activeTodo`. The issued update is the drop update for the shown month |
| `MonthCalendarView.MonthCalendar.NavigateMonth` | src/components/calendar/CalendarView.tsx:87-93 | The new shown date is `setMonth(month +/- 1)` of the old one; `activeTodo` is kept |
| `MonthCalendarView.EditTaskRequest` | src/components/calendar/CalendarView.tsx:181-186 | An update iff the id is known; it is addressed to that id and its updates are the whole first todo with that id (`{ ...todo }`) |
| `MonthCalendarView.EditChangesOnlyUpdatedAt` | src/components/calendar/CalendarView.tsx:181-186 | With distinct ids, applying that edit only changes `updatedAt` |
| `MonthCalendarView.NavigateKeepsDay` | src/components/calendar/CalendarView.tsx:87-93 | For days 1..28 one step moves exactly one month and keeps day and clock |
| `MonthCalendarView.NextThenPrev` | src/components/calendar/CalendarView.tsx:87-93 | For days 1..28 "next" then "prev" returns to the same date |
| `MonthCalendarView.NavigateFromMonthEnd` | src/components/calendar/CalendarView.tsx:87-93 | 2024-01-31 goes "next" to 2024-03-02, and from there "prev" to 2024-02-02 |
| `CurrentMonthView.CurrentGrid` | src/components/CalendarView.tsx:24-34 | Always today's month: padding, days 1..length, padding, 42 cells |
| `CurrentMonthView.CellTodos` | src/components/CalendarView.tsx:36-43 | A cell lists exactly the todos due on its day of today's month and year |
| `CurrentMonthView.IsTodayCell` | src/components/CalendarView.tsx:75 | The `isToday` flag compares the day number only, and only marks a real day of today's month; `TodayMarkedOnce` shows it marks exactly today's cell |
| `CurrentMonthView.TodayMarkedOnce` | src/components/CalendarView.tsx:75 | Comparing only the day number marks exactly one cell, today's |
| `CurrentMonthView.OtherMonthsNotShown` | src/components/CalendarView.tsx:36-43 | A todo due in another month or year, or with an invalid date, is in no cell |
| `CurrentMonthView.HandleDragEnd` | src/components/CalendarView.tsx:45-58 | No update without a target or for an unknown id. Otherwise one update of the due date, in today's year and month |
| `CurrentMonthView.DropOnDay` | src/components/CalendarView.tsx:45-58 | Dropping a known todo on day d gives (today's year, today's month, d) at midnight |
| `CalendarDayCell.DayCell.constructor` | src/components/calendar/CalendarDay.tsx:29-30 | Both dialogs start closed |
| `CalendarDayCell.DayCell.Click` | src/components/calendar/CalendarDay.tsx:35-45 | Padding cell: nothing happens. Day cell: opens the list when it has todos, otherwise the form; the other flag is kept |
| `CalendarDayCell.DayCell.IsPadding` | src/components/calendar/CalendarDay.tsx:35-37 | `!day`: a cell that is not padding holds a non-zero day; `Click` leaves a padding cell's dialogs untouched |
| `CalendarDayCell.DayCell.CellDate` | src/components/calendar/CalendarDay.tsx:87 | The cell's date is at midnight |
| `CalendarDayCell.DayCell.HandleAddTask` | src/components/calendar/CalendarDay.tsx:47-51 | The task is passed on with only its due date replaced, by midnight of the cell's day (the form's time is discarded). The form closes; the list flag is kept |
| `CalendarDayCell.DayCell.AddNewFromList` | src/components/calendar/CalendarDay.tsx:101-104 | Closes the list and opens the form |
| `CalendarDayCell.DayCell.CloseForm` | src/components/calendar/CalendarDay.tsx:89 | Resets only the form flag |
| `CalendarDayCell.DayCell.CloseList` | src/components/calendar/CalendarDay.tsx:107 | Resets only the list flag |
| `CalendarDayCell.DayCell.BubbledClick` | src/components/calendar/CalendarDay.tsx:54-111 | A click on a dialog button runs the button's handler and then `handleDayClick` |
| `CalendarDayCell.ListCannotClose` | src/components/calendar/CalendarDay.tsx:83-111 | On a day with todos, the list stays open after its close button, and "Add New" leaves both dialogs open |
| `Store.TodoStore.constructor` | src/lib/store/todoStore.ts:18-20 | Empty list, not loading, no error |
| `Store.TodoStore.BeginRequest` | src/lib/store/todoStore.ts:23 | Loading, error cleared, list kept |
| `Store.TodoStore.Fail` | src/lib/store/todoStore.ts:33-36 | Error is the message, not loading, list kept |
| `Store.TodoStore.FetchTodos` | src/lib/store/todoStore.ts:22-37 | Success replaces the list with the mapped rows in backend order (empty without data). Failure keeps the list and records the message |
| `Store.TodoStore.AddTodo` | src/lib/store/todoStore.ts:39-64 | The request is the mapped partial todo and does not depend on the user id. Success prepends the mapped inserted row. A mapping or backend failure keeps the list and records the message |
| `Store.TodoStore.UpdateTodo` | src/lib/store/todoStore.ts:66-86 | Success merges the updates into every todo with the id and bumps its `updatedAt`. Failure keeps the list and records the message |
| `Store.TodoStore.DeleteTodo` | src/lib/store/todoStore.ts:88-106 | Success removes every todo with the id, keeping the others in order. Failure keeps the list and records the message |
| `Store.TodoStore.ToggleTodo` | src/lib/store/todoStore.ts:108-113 | An unknown id changes no field at all. Otherwise it is the update that sets `completed` to the negation of the first match's flag |
| `Store.ToggleFlipsMatching` | src/lib/store/todoStore.ts:108-113 | With distinct ids a successful toggle flips only the matching todo and bumps its `updatedAt`; length and order are kept |
| `Store.ToggleWithDuplicateIds` | src/lib/store/todoStore.ts:109-112 | With a shared id, every match gets the negation of the first match's flag |
| `Store.UpdateIdempotent` | src/lib/store/todoStore.ts:76-81 | Repeating a successful update with the same values changes nothing more |
| `LocalTodoList.Defaults` | src/hooks/useTodos.ts:32-48 | The defaults: empty strings, medium priority, personal category, not completed, due, created and updated now, no recurrence, no subtasks |
| `LocalTodoList.ToggleWhere` | src/hooks/useTodos.ts:50-58 | Same length. Each todo with the id has its own flag flipped and `updatedAt` set to now; the others are unchanged |
| `LocalTodoList.CeilDiv` | src/hooks/useTodos.ts:28 | `Math.ceil(a / b)`: b(r - 1) < a <= b r |
| `LocalTodoList.LocalTodos.constructor` | src/hooks/useTodos.ts:5-8 | Starts from the loaded list |
| `LocalTodoList.LocalTodos.TodayTodos` | src/hooks/useTodos.ts:14-22 | Ordered subsequence of exactly the todos due on now's calendar date |
| `LocalTodoList.LocalTodos.UpcomingTodos` | src/hooks/useTodos.ts:24-30 | Ordered subsequence of exactly the todos with ceil(diff / 1 day) in 1..7 |
| `LocalTodoList.LocalTodos.AddTodo` | src/hooks/useTodos.ts:32-48 | Appends exactly one todo at the end: the defaults overridden by the supplied fields |
| `LocalTodoList.LocalTodos.ToggleTodo` | src/hooks/useTodos.ts:50-58 | The list becomes the per-todo toggle of the old list |
| `LocalTodoList.LocalTodos.UpdateTodo` | src/hooks/useTodos.ts:60-68 | The updates are merged into the matching todos only, which get `updatedAt` set to now |
| `LocalTodoList.LocalTodos.DeleteTodo` | src/hooks/useTodos.ts:70-72 | Removes exactly the todos with the id and keeps the rest in order |
| `LocalTodoList.AddedTodoFields` | src/hooks/useTodos.ts:32-48 | Every supplied field, the id included, overrides its default; the others keep the default |
| `LocalTodoList.DueToday` | src/hooks/useTodos.ts:14-22 | The "today" test accepts exactly what the filter engine's 'today' accepts (see also `TodayIsTodayFilter`) |
| `LocalTodoList.DueUpcoming` | src/hooks/useTodos.ts:24-30 | An upcoming todo has a valid due date strictly after now; `UpcomingWindow` shows it is exactly 0 < due - now <= 7 x 24 h |
| `LocalTodoList.TodayIsTodayFilter` | src/hooks/useTodos.ts:14-22 | "Today" equals the filter engine's 'today' result |
| `LocalTodoList.UpcomingWindow` | src/hooks/useTodos.ts:24-30 | Upcoming iff 0 < due - now <= 7 x 24 h |
| `LocalTodoList.UpcomingIsWeekButNow` | src/hooks/useTodos.ts:24-30 | Upcoming iff in the 'week' window and not due exactly now |
| `LocalTodoList.LaterTodayIsUpcoming` | src/hooks/useTodos.ts:24-30 | A todo due later today is in both "today" and "upcoming" |
| `LocalTodoList.ToggleAgreesWithUpdate` | src/hooks/useTodos.ts:50-58 | With distinct ids the local toggle equals the store's toggle update |
| `TaskFormModel.DueFromTime` | src/components/todo/TaskForm.tsx:23-25 | The due date is valid iff the start date is, the hours part is a number, and a minutes part exists and is a number |
| `TaskFormModel.TimeOfDayFromInput` | src/components/todo/TaskForm.tsx:23-25 | "HH:MM" keeps the start date's calendar day, seconds and milliseconds, and sets hour HH and minute MM |
| `TaskFormModel.SetHoursInRange` | src/components/todo/TaskForm.tsx:24-25 | `setHours(h, mi)` with h in 0..23 and mi in 0..59 changes exactly hour and minute |
| `TaskFormModel.DefaultTimeIsNoon` | src/components/todo/TaskForm.tsx:16 | The default "12:00" gives noon of the start date |
| `TaskFormModel.ClearedTimeIsInvalid` | src/components/todo/TaskForm.tsx:23-25 | An empty time gives an invalid date, because the minutes are missing |
| `TaskFormModel.TaskForm.constructor` | src/components/todo/TaskForm.tsx:13-17 | Defaults: empty title, medium priority, personal category, time "12:00", empty description |
| `TaskFormModel.TaskForm.HandleSubmit` | src/components/todo/TaskForm.tsx:19-37 | Nothing iff the title is blank. Otherwise the task with the trimmed, non-empty title, the entered fields and the composed due date |
| `QuickAddModel.DateField` | src/components/QuickAdd.tsx:14 | The initial date field is midnight of today's date |
| `QuickAddModel.QuickAdd.constructor` | src/components/QuickAdd.tsx:10-14 | The initial state is the reset state |
| `QuickAddModel.QuickAdd.HandleSubmit` | src/components/QuickAdd.tsx:16-36 | Blank title: nothing is added and no field changes. Otherwise the task has the trimmed title, empty description and the entered fields, and the form is reset: empty title, advanced closed, medium, personal, today |
| `QuickAddModel.QuickAdd.ToggleAdvanced` | src/components/QuickAdd.tsx:65 | Negates `showAdvanced`; nothing else changes |
| `QuickAddModel.QuickAddWrite` | src/components/QuickAdd.tsx:20-29 | Sent to the store, the empty description and notes are not written; it fails iff the date field is invalid |

## Left out

- Network and storage I/O are left out: the Supabase client, authentication, and the `localStorage` load and save in `src/hooks/useTodos.ts`. The backend's answer, the user id and the loaded list are parameters.
- Asynchronous interleaving of store operations is left out. Each operation is one atomic transition from request start to completion.
- Time zones, daylight saving time, ISO string formatting and parsing, `toDateString` and `toLocaleString` are left out. Storage rows hold dates directly: formatting and parsing are taken to be inverses.
- The quick-add date field holds the date its "YYYY-MM-DD" text denotes. `new Date(text)` reads that text as UTC midnight; the model reads it as local midnight.
- The JavaScript Date range limit is not modelled: a time value beyond 8.64e15 ms gives an invalid date in JavaScript, but not in the model. The same goes for fractional, exponent and hexadecimal forms in `Number`. The time input only produces "HH:MM" or "".
- dnd-kit sensors, collision detection and drag overlays are left out. The drop target is the id of the cell under the pointer, or none.
- A padding cell renders without attaching its droppable node, so the library does not report it as a target. `CalendarGrid.DropOnPaddingId` shows what would happen if it were.
- Presentation is left out: colours, labels, weekday names and layout.
- The form fields' change handlers (`setTitle`, `setPriority` and the others) are plain field assignments and are not separate methods.
- Clock reads that happen microseconds apart are merged into a single `now`: the two `new Date()` calls in the store's update (`mapTodoToDB` and the merge); the per-todo `new Date()` in `src/lib/hooks/useTodoFilters.ts:17`; the per-todo reads in `src/hooks/useTodos.ts:15` and `:25`; and the three reads in `src/hooks/useTodos.ts:39`, `:43` and `:44`, which `LocalTodoList.Defaults` makes equal.
- `calendar/CalendarView.tsx` passes no `month` or `year` to the day cell. `DayCell` takes them as its own inputs. As wired, the cell's date is invalid, but the view's `onAddTask` overrides the due date.
- The view passes `onEditTask`, but the cell reads a prop named `onUpdateTask`. `MonthCalendarView.EditTaskRequest` models the view's callback on its own.
- Lemmas about grids and drops require that the year is outside 0..99. `new Date(y, m, d)` reads such years as 1900 + y, so their grid is computed for a different year.
- `Text.ParseInt` covers `parseInt` without a radix for integral results only.

## Findings

| source | as written | input that shows it | evidently intended | confidence | as-written member | corrected member |
|---|---|---|---|---|---|---|
| src/components/calendar/CalendarDay.tsx:83-111 | The dialogs are rendered inside the cell's clickable element, and their buttons do not stop the click from bubbling. So `handleDayClick` runs after every dialog button | A day with one todo: click the cell (list opens), then the list's close button. The list stays open. "Add New" leaves list and form open together | Close closes only its own dialog; "Add New" switches from the list to the form, so at most one dialog is open | medium, not executed | `CalendarDayCell.DayCell.BubbledClick` (counterexample `CalendarDayCell.ListCannotClose`) | `CalendarDayCell.DayCell.CloseList`, `CalendarDayCell.DayCell.AddNewFromList`, `CalendarDayCell.DayCell.CloseForm` (each ensures `AtMostOneOpen`) |
