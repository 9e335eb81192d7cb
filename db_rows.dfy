/** The storage rows of the `todos` and `subtasks` tables
    (src/lib/supabase/types.ts) and what an update sends for them. Date
    columns hold the date that the stored ISO string denotes. */
module DbRows {
  import opened Wrappers
  import opened Dates
  import opened TodoTypes

  datatype SubTaskRow = SubTaskRow(
    id: string,
    todoId: string,
    title: string,
    completed: bool,
    createdAt: LocalDate,
    updatedAt: LocalDate)

  datatype TodoRow = TodoRow(
    id: string,
    title: string,
    description: string,
    priority: Priority,
    category: string,
    dueDate: LocalDate,
    completed: bool,
    recurringFrequency: Option<Frequency>,
    recurringEndDate: Option<LocalDate>,
    notes: string,
    createdAt: LocalDate,
    updatedAt: LocalDate,
    userId: string)

  /** A row as `select('*, subtasks(*)')` returns it: the joined subtasks may be absent. */
  datatype FetchedTodo = FetchedTodo(row: TodoRow, subtasks: Option<seq<SubTaskRow>>)

  /** The columns an insert or update carries; None is a column left out.
      A key whose value is `undefined` is left out of the request as well. */
  datatype TodoWrite = TodoWrite(
    title: Option<string>,
    description: Option<string>,
    priority: Option<Priority>,
    category: Option<string>,
    dueDate: Option<LocalDate>,
    completed: Option<bool>,
    recurringFrequency: Option<Frequency>,
    recurringEndDate: Option<LocalDate>,
    notes: Option<string>,
    updatedAt: LocalDate)

  /** The row an update with `w` leaves behind: written columns take the new
      value, all others keep theirs. */
  function ApplyWrite(row: TodoRow, w: TodoWrite): (r: TodoRow)
    ensures r.id == row.id && r.createdAt == row.createdAt && r.userId == row.userId
    ensures r.updatedAt == w.updatedAt
    ensures r.title == (if w.title.Some? then w.title.value else row.title)
    ensures r.description == (if w.description.Some? then w.description.value else row.description)
    ensures r.priority == (if w.priority.Some? then w.priority.value else row.priority)
    ensures r.category == (if w.category.Some? then w.category.value else row.category)
    ensures r.dueDate == (if w.dueDate.Some? then w.dueDate.value else row.dueDate)
    ensures r.completed == (if w.completed.Some? then w.completed.value else row.completed)
    ensures r.notes == (if w.notes.Some? then w.notes.value else row.notes)
    ensures w.recurringFrequency.Some? ==> r.recurringFrequency == w.recurringFrequency
    ensures w.recurringFrequency.None? ==> r.recurringFrequency == row.recurringFrequency
    ensures w.recurringEndDate.Some? ==> r.recurringEndDate == w.recurringEndDate
    ensures w.recurringEndDate.None? ==> r.recurringEndDate == row.recurringEndDate
  {
    row.(title := Pick(w.title, row.title),
         description := Pick(w.description, row.description),
         priority := Pick(w.priority, row.priority),
         category := Pick(w.category, row.category),
         dueDate := Pick(w.dueDate, row.dueDate),
         completed := Pick(w.completed, row.completed),
         recurringFrequency := if w.recurringFrequency.Some? then w.recurringFrequency else row.recurringFrequency,
         recurringEndDate := if w.recurringEndDate.Some? then w.recurringEndDate else row.recurringEndDate,
         notes := Pick(w.notes, row.notes),
         updatedAt := w.updatedAt)
  }
}
