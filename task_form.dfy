/** The add-task form of a calendar day (src/components/todo/TaskForm.tsx):
    five form fields edited by the user and a submit handler that turns
    them into a partial todo for `onSubmit`. */
module TaskFormModel {
  import opened Wrappers
  import opened Dates
  import opened Text
  import opened TodoTypes

  /** `dueDate.setHours(hours, minutes)` on a copy of `initialDate`, with
      `[hours, minutes] = time.split(':').map(Number)`. A missing minutes
      part is `undefined`, which reads as NaN; any NaN, like an invalid
      start date, gives an invalid date. */
  function DueFromTime(initialDate: JsDate, time: string): (r: JsDate)
    ensures var parts := Split(time, ':');
            r.At? <==> initialDate.At? && Number(parts[0]).Some? && |parts| > 1 && Number(parts[1]).Some?
  {
    var parts := Split(time, ':');
    var hours := Number(parts[0]);
    var minutes := if |parts| > 1 then Number(parts[1]) else None;
    match initialDate
    case InvalidDate => InvalidDate
    case At(d) =>
      if hours.None? || minutes.None? then InvalidDate
      else At(SetHours(d, hours.value, minutes.value))
  }

  /** An "HH:MM" reading of two digit runs keeps the start date's calendar
      day, seconds and milliseconds and sets its hour and minute. */
  lemma TimeOfDayFromInput(d: LocalDate, hh: string, mm: string)
    requires hh != [] && mm != [] && AllDigits(hh) && AllDigits(mm)
    requires DigitsValue(hh) < 24 && DigitsValue(mm) < 60
    ensures DueFromTime(At(d), hh + ":" + mm) == At(d.(hour := DigitsValue(hh), minute := DigitsValue(mm)))
  {
    assert ':' !in hh && ':' !in mm by {
      assert !IsDigit(':');
    }
    SplitTwoFields(hh, mm, ':');
    NumberOfDigits(hh);
    NumberOfDigits(mm);
    SetHoursInRange(d, DigitsValue(hh), DigitsValue(mm));
  }

  /** `setHours(h, mi)` with an hour and minute in range changes just those two fields. */
  lemma SetHoursInRange(d: LocalDate, h: int, mi: int)
    requires 0 <= h < 24 && 0 <= mi < 60
    ensures SetHours(d, h, mi) == d.(hour := h, minute := mi)
  {
    MakeDateTimeOfValid(d.(hour := h, minute := mi));
  }

  /** The default time "12:00" puts the task at noon of the start date. */
  lemma DefaultTimeIsNoon(d: LocalDate)
    ensures DueFromTime(At(d), "12:00") == At(d.(hour := 12, minute := 0))
  {
    assert "12:00" == "12" + ":" + "00";
    assert DigitsValue("12") == 12 && DigitsValue("00") == 0;
    TimeOfDayFromInput(d, "12", "00");
  }

  /** A cleared time input ("") gives an invalid due date: the hour reads as
      0 but the minutes are missing. */
  lemma ClearedTimeIsInvalid(d: LocalDate)
    ensures DueFromTime(At(d), "") == InvalidDate
  {
    assert Split("", ':') == [""];
  }

  class TaskForm {
    var title: string
    var priority: Priority
    var category: Category
    var time: string
    var description: string

    /** The `useState` initial values. */
    constructor()
      ensures title == "" && priority == Medium && category == Personal
      ensures time == "12:00" && description == ""
    {
      title := "";
      priority := Medium;
      category := Personal;
      time := "12:00";
      description := "";
    }

    /** `handleSubmit`: nothing for a blank title; otherwise the trimmed
        title, the other fields as entered and the due date composed from
        `initialDate` and `time`. The form's fields do not change. */
    method HandleSubmit(initialDate: JsDate) returns (submitted: Option<TodoPatch>)
      ensures submitted.None? <==> AllWhitespace(title)
      ensures submitted.Some? ==>
                && submitted.value == NewTaskPatch(Trim(title), description, priority, category,
                                                   DueFromTime(initialDate, time))
                && submitted.value.title.value != []
                && !IsWhitespace(submitted.value.title.value[0])
    {
      var trimmed := Trim(title);
      if trimmed == [] {
        return None;
      }
      var dueDate := DueFromTime(initialDate, time);
      submitted := Some(NewTaskPatch(trimmed, description, priority, category, dueDate));
    }
  }
}
