/** The quick-add bar (src/components/QuickAdd.tsx): five fields of form
    state, a submit handler that hands a partial todo to `onAdd` and then
    resets the form, and the button that shows or hides the advanced
    fields. The due-date field holds the date its "YYYY-MM-DD" text
    denotes: `new Date(text)`, invalid when the input was cleared. `today`
    stands for the date of `new Date()`. */
module QuickAddModel {
  import opened Wrappers
  import opened Dates
  import opened Text
  import opened TodoTypes
  import opened DbRows
  import opened TodoMapper

  /** The date the field's initial text names: midnight of today's date. */
  function DateField(today: LocalDate): (r: JsDate)
    ensures r.At? && SameCalendarDay(r.date, today)
    ensures r.date.hour == 0 && r.date.minute == 0 && r.date.second == 0 && r.date.ms == 0
  {
    At(today.(hour := 0, minute := 0, second := 0, ms := 0))
  }

  class QuickAdd {
    var title: string
    var showAdvanced: bool
    var priority: Priority
    var category: Category
    var dueDate: JsDate

    /** The state right after mounting and after every submission. */
    predicate IsReset(today: LocalDate)
      reads this
    {
      title == "" && !showAdvanced && priority == Medium && category == Personal
      && dueDate == DateField(today)
    }

    constructor(today: LocalDate)
      ensures IsReset(today)
    {
      title := "";
      showAdvanced := false;
      priority := Medium;
      category := Personal;
      dueDate := DateField(today);
    }

    /** `handleSubmit`: a blank title changes nothing and adds nothing;
        otherwise the partial todo passed to `onAdd` is returned and the
        form is reset. */
    method HandleSubmit(today: LocalDate) returns (added: Option<TodoPatch>)
      modifies this
      ensures AllWhitespace(old(title)) ==>
                added.None? && title == old(title) && showAdvanced == old(showAdvanced)
                && priority == old(priority) && category == old(category) && dueDate == old(dueDate)
      ensures !AllWhitespace(old(title)) ==>
                && added == Some(NewTaskPatch(Trim(old(title)), "", old(priority), old(category), old(dueDate)))
                && IsReset(today)
    {
      var trimmed := Trim(title);
      if trimmed == [] {
        return None;
      }
      added := Some(NewTaskPatch(trimmed, "", priority, category, dueDate));
      title := "";
      showAdvanced := false;
      priority := Medium;
      category := Personal;
      dueDate := DateField(today);
    }

    /** The tag button: `setShowAdvanced(!showAdvanced)`. */
    method ToggleAdvanced()
      modifies this
      ensures showAdvanced == !old(showAdvanced)
      ensures title == old(title) && priority == old(priority) && category == old(category)
      ensures dueDate == old(dueDate)
    {
      showAdvanced := !showAdvanced;
    }
  }

  /** Sent to the store, a quick-added task writes neither its empty
      description nor its empty notes, and fails when the date field was
      cleared. */
  lemma QuickAddWrite(title: string, priority: Priority, category: Category, dueDate: JsDate, now: LocalDate)
    ensures var w := MapTodoToDB(NewTaskPatch(title, "", priority, category, dueDate), now);
            && (w.Failure? <==> dueDate.InvalidDate?)
            && (w.Success? ==> w.value.description.None? && w.value.notes.None?
                               && w.value.completed == Some(false)
                               && w.value.category == Some(category.Name()))
  {
    assert category.Name() != "";
  }
}
