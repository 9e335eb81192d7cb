/** Translation between storage rows and in-memory todos
    (src/lib/utils/todoMapper.ts). */
module TodoMapper {
  import opened Wrappers
  import opened Dates
  import opened TodoTypes
  import opened DbRows
  import Seqs

  /** The message `toISOString` throws with on an invalid date. */
  const InvalidTimeValue := "Invalid time value"

  /** `mapSubTaskFromDB`: keeps only id, title and completed. */
  function MapSubTaskFromDB(s: SubTaskRow): (r: SubTask)
    ensures r.id == s.id && r.title == s.title && r.completed == s.completed
  {
    SubTask(s.id, s.title, s.completed)
  }

  /** `mapTodoFromDB`. */
  function MapTodoFromDB(f: FetchedTodo): (r: Todo)
    ensures r.id == f.row.id && r.title == f.row.title && r.description == f.row.description
    ensures r.priority == f.row.priority && r.category == f.row.category
    ensures r.completed == f.row.completed && r.notes == f.row.notes
    ensures r.dueDate == At(f.row.dueDate)
    ensures r.createdAt == f.row.createdAt && r.updatedAt == f.row.updatedAt
    ensures r.recurring.Some? <==> f.row.recurringFrequency.Some?
    ensures r.recurring.Some? ==> r.recurring.value.frequency == f.row.recurringFrequency.value
                                  && r.recurring.value.endDate == f.row.recurringEndDate
    ensures f.subtasks.None? ==> r.subtasks == []
    ensures f.subtasks.Some? ==>
              && |r.subtasks| == |f.subtasks.value|
              && forall k :: 0 <= k < |r.subtasks| ==> r.subtasks[k] == MapSubTaskFromDB(f.subtasks.value[k])
  {
    var row := f.row;
    Todo(row.id, row.title, row.description, row.priority, row.category, At(row.dueDate),
         row.completed,
         match row.recurringFrequency
         case Some(freq) => Some(Recurring(freq, row.recurringEndDate))
         case None => None,
         Seqs.Map(Pick(f.subtasks, []), MapSubTaskFromDB),
         row.notes, row.createdAt, row.updatedAt)
  }

  /** `...(s && { key: s })`: a string field is sent only when it is present
      and non-empty. */
  function Truthy(s: Option<string>): (r: Option<string>)
    ensures r.Some? <==> s.Some? && s.value != ""
    ensures r.Some? ==> r == s
  {
    if s.Some? && s.value != "" then s else None
  }

  /** `mapTodoToDB(todo)` with `now` for `new Date()`. Fails, as
      `toISOString` throws, when the due date is an invalid date. */
  function MapTodoToDB(p: TodoPatch, now: LocalDate): (r: Result<TodoWrite>)
    ensures r.Failure? <==> p.dueDate == Some(InvalidDate)
    ensures r.Failure? ==> r.message == InvalidTimeValue
    ensures r.Success? ==>
              var w := r.value;
              && w.updatedAt == now
              && (w.title.Some? <==> p.title.Some? && p.title.value != "")
              && (w.description.Some? <==> p.description.Some? && p.description.value != "")
              && (w.category.Some? <==> p.category.Some? && p.category.value != "")
              && (w.notes.Some? <==> p.notes.Some? && p.notes.value != "")
              && w.priority == p.priority
              && w.completed == p.completed
              && (w.title.Some? ==> w.title == p.title)
              && (w.description.Some? ==> w.description == p.description)
              && (w.category.Some? ==> w.category == p.category)
              && (w.notes.Some? ==> w.notes == p.notes)
              && (w.dueDate.Some? <==> p.dueDate.Some?)
              && w.dueDate == (match p.dueDate case Some(At(d)) => Some(d) case _ => None)
              && (w.recurringFrequency.Some? <==> p.recurring.Some? && p.recurring.value.Some?)
              && (w.recurringFrequency.Some? ==>
                    && w.recurringFrequency.value == p.recurring.value.value.frequency
                    && w.recurringEndDate == p.recurring.value.value.endDate)
              && (!(p.recurring.Some? && p.recurring.value.Some?) ==> w.recurringEndDate.None?)
              && (w.recurringEndDate.Some? ==> w.recurringFrequency.Some?)
  {
    match p.dueDate
    case Some(InvalidDate) => Failure(InvalidTimeValue)
    case _ =>
      var due := match p.dueDate case Some(At(d)) => Some(d) case _ => None;
      var rec := Pick(p.recurring, None);
      var freq := match rec case Some(rc) => Some(rc.frequency) case None => None;
      var end := match rec case Some(rc) => rc.endDate case None => None;
      Success(TodoWrite(Truthy(p.title), Truthy(p.description), p.priority, Truthy(p.category), due,
                        p.completed, freq, end, Truthy(p.notes), now))
  }

  /** Reading a row, sending the whole todo back as an update and applying
      it reproduces the row, apart from the new `updated_at`. */
  lemma RowRoundTrip(f: FetchedTodo, now: LocalDate)
    ensures MapTodoToDB(PatchOf(MapTodoFromDB(f)), now).Success?
    ensures ApplyWrite(f.row, MapTodoToDB(PatchOf(MapTodoFromDB(f)), now).value)
            == f.row.(updatedAt := now)
  {
  }

  /** The fields of a partial todo that `mapTodoToDB` sends: id, subtasks and
      both timestamps are never written from the partial object. */
  function StoredPart(p: TodoPatch): (r: TodoPatch)
    ensures r.id.None? && r.subtasks.None? && r.createdAt.None? && r.updatedAt.None?
    ensures r.(id := p.id, subtasks := p.subtasks, createdAt := p.createdAt, updatedAt := p.updatedAt) == p
  {
    p.(id := None, subtasks := None, createdAt := None, updatedAt := None)
  }

  /** A partial todo every field of which survives the trip to storage:
      strings that are sent are non-empty, a due date is valid, and a
      recurrence is present with an end date. */
  predicate Storable(p: TodoPatch) {
    && (p.title.Some? ==> p.title.value != "")
    && (p.description.Some? ==> p.description.value != "")
    && (p.category.Some? ==> p.category.value != "")
    && (p.notes.Some? ==> p.notes.value != "")
    && (p.dueDate.Some? ==> p.dueDate.value.At?)
    && (p.recurring.Some? ==> p.recurring.value.Some? && p.recurring.value.value.endDate.Some?)
  }

  /** Writing a storable partial todo and reading the row back gives the
      same todo as merging the partial object in memory, as the store's
      update does. */
  lemma WriteThenReadIsMerge(f: FetchedTodo, p: TodoPatch, now: LocalDate)
    requires Storable(p)
    ensures MapTodoToDB(p, now).Success?
    ensures MapTodoFromDB(FetchedTodo(ApplyWrite(f.row, MapTodoToDB(p, now).value), f.subtasks))
            == Merge(MapTodoFromDB(f), StoredPart(p)).(updatedAt := now)
  {
  }

  /** A recurrence sent without an end date leaves a stored end date in
      place: the in-memory merge and the stored row then disagree. */
  lemma EndDateNotCleared(f: FetchedTodo, freq: Frequency, now: LocalDate)
    requires f.row.recurringEndDate.Some?
    ensures var p := EmptyPatch.(recurring := Some(Some(Recurring(freq, None))));
            var back := MapTodoFromDB(FetchedTodo(ApplyWrite(f.row, MapTodoToDB(p, now).value), f.subtasks));
            && back.recurring == Some(Recurring(freq, f.row.recurringEndDate))
            && Merge(MapTodoFromDB(f), p).recurring == Some(Recurring(freq, None))
  {
  }
}
