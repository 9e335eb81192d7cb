/** The in-memory todo entity (src/types/todo.ts), the partial objects
    (`Partial<Todo>`) that callers pass around, and the list operations that
    several components share: `find` by id, the
    `{ ...todo, ...updates, updatedAt: new Date() }` merge, and removal by id. */
module TodoTypes {
  import opened Wrappers
  import opened Dates
  import Seqs

  datatype Priority = High | Medium | Low

  datatype Category = Work | Personal | Health | Shopping | Other {
    /** The string a category is stored and compared as. */
    function Name(): string {
      match this
      case Work => "work"
      case Personal => "personal"
      case Health => "health"
      case Shopping => "shopping"
      case Other => "other"
    }
  }

  datatype Frequency = Daily | Weekly | Monthly

  datatype Recurring = Recurring(frequency: Frequency, endDate: Option<LocalDate>)

  datatype SubTask = SubTask(id: string, title: string, completed: bool)

  /** A todo. `category` holds whatever string the storage row carried: the
      mapper casts it to `Category` without checking. */
  datatype Todo = Todo(
    id: string,
    title: string,
    description: string,
    priority: Priority,
    category: string,
    dueDate: JsDate,
    completed: bool,
    recurring: Option<Recurring>,
    subtasks: seq<SubTask>,
    notes: string,
    createdAt: LocalDate,
    updatedAt: LocalDate)

  /** `Partial<Todo>`: None is an absent key. `recurring` can also be present
      with the value `undefined` (Some(None)), as in a spread of a todo
      without recurrence. */
  datatype TodoPatch = TodoPatch(
    id: Option<string>,
    title: Option<string>,
    description: Option<string>,
    priority: Option<Priority>,
    category: Option<string>,
    dueDate: Option<JsDate>,
    completed: Option<bool>,
    recurring: Option<Option<Recurring>>,
    subtasks: Option<seq<SubTask>>,
    notes: Option<string>,
    createdAt: Option<LocalDate>,
    updatedAt: Option<LocalDate>)

  const EmptyPatch := TodoPatch(None, None, None, None, None, None, None, None, None, None, None, None)

  function Pick<T>(patched: Option<T>, base: T): T {
    match patched
    case Some(v) => v
    case None => base
  }

  /** `{ ...t, ...p }`: every key present in `p` overrides the one in `t`. */
  function Merge(t: Todo, p: TodoPatch): (r: Todo)
  {
    Todo(Pick(p.id, t.id), Pick(p.title, t.title), Pick(p.description, t.description),
         Pick(p.priority, t.priority), Pick(p.category, t.category), Pick(p.dueDate, t.dueDate),
         Pick(p.completed, t.completed), Pick(p.recurring, t.recurring),
         Pick(p.subtasks, t.subtasks), Pick(p.notes, t.notes),
         Pick(p.createdAt, t.createdAt), Pick(p.updatedAt, t.updatedAt))
  }

  /** `{ ...t }` used as a `Partial<Todo>`: every key present. */
  function PatchOf(t: Todo): (p: TodoPatch)
    ensures forall u :: Merge(u, p) == t
  {
    TodoPatch(Some(t.id), Some(t.title), Some(t.description), Some(t.priority),
              Some(t.category), Some(t.dueDate), Some(t.completed), Some(t.recurring),
              Some(t.subtasks), Some(t.notes), Some(t.createdAt), Some(t.updatedAt))
  }

  /** The object both task forms submit: the given fields, not completed,
      no subtasks and empty notes. */
  function NewTaskPatch(title: string, description: string, priority: Priority, category: Category,
                        dueDate: JsDate): (p: TodoPatch)
    ensures p.completed == Some(false) && p.subtasks == Some([]) && p.notes == Some("")
    ensures p.id.None? && p.recurring.None? && p.createdAt.None? && p.updatedAt.None?
  {
    EmptyPatch.(title := Some(title), description := Some(description), priority := Some(priority),
                category := Some(category.Name()), dueDate := Some(dueDate), completed := Some(false),
                subtasks := Some([]), notes := Some(""))
  }

  lemma MergeEmptyPatch(t: Todo)
    ensures Merge(t, EmptyPatch) == t
  {
  }

  /** Applying the same partial object twice changes nothing more. */
  lemma MergeIdempotent(t: Todo, p: TodoPatch)
    ensures Merge(Merge(t, p), p) == Merge(t, p)
  {
  }

  /** `todos.find(t => t.id === id)`: the first todo with that id. */
  function FindById(todos: seq<Todo>, id: string): (r: Option<Todo>)
    ensures r.None? <==> forall k :: 0 <= k < |todos| ==> todos[k].id != id
    ensures r.Some? ==> exists k :: 0 <= k < |todos| && todos[k] == r.value
                                    && todos[k].id == id
                                    && forall j :: 0 <= j < k ==> todos[j].id != id
  {
    if todos == [] then None
    else if todos[0].id == id then Some(todos[0])
    else
      var r := FindById(todos[1..], id);
      assert forall k :: 1 <= k < |todos| ==> todos[k] == todos[1..][k - 1];
      r
  }

  /** The store's and the local hook's update:
      `todos.map(t => t.id === id ? { ...t, ...updates, updatedAt: now } : t)`. */
  function UpdateWhere(todos: seq<Todo>, id: string, updates: TodoPatch, now: LocalDate): (r: seq<Todo>)
    ensures |r| == |todos|
    ensures forall k :: 0 <= k < |todos| && todos[k].id != id ==> r[k] == todos[k]
    ensures forall k :: 0 <= k < |todos| && todos[k].id == id ==>
              r[k] == Merge(todos[k], updates).(updatedAt := now)
  {
    Seqs.Map(todos, (t: Todo) => if t.id == id then Merge(t, updates).(updatedAt := now) else t)
  }

  /** An update for an id no todo carries leaves the list as it was. */
  lemma UpdateWhereAbsent(todos: seq<Todo>, id: string, updates: TodoPatch, now: LocalDate)
    requires FindById(todos, id).None?
    ensures UpdateWhere(todos, id, updates, now) == todos
  {
  }

  /** `todos.filter(t => t.id !== id)`. */
  function RemoveId(todos: seq<Todo>, id: string): (r: seq<Todo>)
    ensures Seqs.IsSubsequence(r, todos)
    ensures forall t :: t in r <==> t in todos && t.id != id
    ensures forall t :: multiset(r)[t] == if t.id != id then multiset(todos)[t] else 0
    ensures FindById(r, id).None?
  {
    Seqs.FilterIsSubsequence(todos, (t: Todo) => t.id != id);
    Seqs.FilterMultiset(todos, (t: Todo) => t.id != id);
    Seqs.Filter(todos, (t: Todo) => t.id != id)
  }
}
