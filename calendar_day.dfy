/** One day cell of the navigable calendar
    (src/components/calendar/CalendarDay.tsx): its props are fixed for the
    cell's lifetime and its two dialog flags, `showTaskForm` and
    `showTaskList`, change step by step in the click handlers. */
module CalendarDayCell {
  import opened Wrappers
  import opened Dates
  import opened TodoTypes

  /** A button inside one of the cell's dialogs. */
  datatype Control = ListClose | ListAddNew | FormClose

  class DayCell {
    const day: Option<int>
    const todos: seq<Todo>
    const month: int
    const year: int
    var showTaskForm: bool
    var showTaskList: bool

    constructor(day: Option<int>, todos: seq<Todo>, month: int, year: int)
      ensures this.day == day && this.todos == todos && this.month == month && this.year == year
      ensures !showTaskForm && !showTaskList
    {
      this.day := day;
      this.todos := todos;
      this.month := month;
      this.year := year;
      showTaskForm := false;
      showTaskList := false;
    }

    /** `!day`: a null or zero day renders an inert padding cell. */
    predicate IsPadding()
      ensures !IsPadding() ==> day.Some? && day.value != 0
    {
      day.None? || day.value == 0
    }

    predicate AtMostOneOpen()
      reads this
    {
      !(showTaskForm && showTaskList)
    }

    /** A click on the cell: `handleDayClick` on a day cell opens the task
        list when the day has todos and the task form otherwise; a padding
        cell has no handler. */
    method Click()
      modifies this
      ensures IsPadding() ==> showTaskForm == old(showTaskForm) && showTaskList == old(showTaskList)
      ensures !IsPadding() && |todos| > 0 ==> showTaskList && showTaskForm == old(showTaskForm)
      ensures !IsPadding() && |todos| == 0 ==> showTaskForm && showTaskList == old(showTaskList)
      ensures !old(showTaskForm) && !old(showTaskList) && !IsPadding() ==>
                (showTaskList <==> |todos| > 0) && (showTaskForm <==> |todos| == 0)
    {
      if IsPadding() {
        return;
      }
      if |todos| > 0 {
        showTaskList := true;
      } else {
        showTaskForm := true;
      }
    }

    /** `initialDate` of the form and `date` of the list: `new Date(year, month, day)`. */
    function CellDate(): (r: LocalDate)
      requires !IsPadding()
      ensures r.hour == 0 && r.minute == 0 && r.second == 0 && r.ms == 0
    {
      NewDate(year, month, day.value)
    }

    /** `handleAddTask`: pass the submitted task on with its due date replaced
        by midnight of this cell's day, then close the form. */
    method HandleAddTask(taskData: TodoPatch) returns (added: TodoPatch)
      requires !IsPadding()
      modifies this
      ensures added.(dueDate := taskData.dueDate) == taskData
      ensures added.dueDate == Some(At(CellDate()))
      ensures !showTaskForm && showTaskList == old(showTaskList)
    {
      var date := NewDate(year, month, day.value);
      added := taskData.(dueDate := Some(At(date)));
      showTaskForm := false;
    }

    /** "Add New" in the task list: close the list, open the form. */
    method AddNewFromList()
      modifies this
      ensures !showTaskList && showTaskForm
      ensures AtMostOneOpen()
    {
      showTaskList := false;
      showTaskForm := true;
    }

    /** The form's close button: only the form flag changes. */
    method CloseForm()
      modifies this
      ensures !showTaskForm && showTaskList == old(showTaskList)
      ensures AtMostOneOpen()
    {
      showTaskForm := false;
    }

    /** The list's close button: only the list flag changes. */
    method CloseList()
      modifies this
      ensures !showTaskList && showTaskForm == old(showTaskForm)
      ensures AtMostOneOpen()
    {
      showTaskList := false;
    }

    /** A click on a dialog button as the cell receives it: the dialogs are
        rendered inside the cell's element and nothing stops the click from
        bubbling, so the button's handler runs and then `handleDayClick`. */
    method BubbledClick(control: Control)
      requires !IsPadding()
      modifies this
      ensures control == ListClose ==> showTaskList == (|todos| > 0)
                                       && showTaskForm == (old(showTaskForm) || |todos| == 0)
      ensures control == ListAddNew ==> showTaskForm && showTaskList == (|todos| > 0)
      ensures control == FormClose ==> showTaskForm == (|todos| == 0)
                                       && showTaskList == (old(showTaskList) || |todos| > 0)
    {
      match control {
        case ListClose => CloseList();
        case ListAddNew => AddNewFromList();
        case FormClose => CloseForm();
      }
      Click();
    }
  }

  /** With the list open on a day that has todos, its close button leaves
      it open, and "Add New" opens the form on top of it. */
  method ListCannotClose(todos: seq<Todo>, month: int, year: int, d: int)
    returns (listOpenAfterClose: bool, bothOpenAfterAddNew: bool)
    requires |todos| > 0 && d != 0
    ensures listOpenAfterClose && bothOpenAfterAddNew
  {
    var cell := new DayCell(Some(d), todos, month, year);
    cell.Click();
    assert cell.showTaskList && !cell.showTaskForm;
    cell.BubbledClick(ListClose);
    listOpenAfterClose := cell.showTaskList;
    cell.BubbledClick(ListAddNew);
    bothOpenAfterAddNew := cell.showTaskList && cell.showTaskForm;
  }
}
