/** The shared todo store (src/lib/store/todoStore.ts). Each operation
    first marks a request as running, then performs one round trip to the
    backend, whose answer is a parameter here, and records either the new
    list or the error message. `now` stands for `new Date()`. */
module Store {
  import opened Wrappers
  import opened Dates
  import opened TodoTypes
  import opened DbRows
  import opened TodoMapper
  import Seqs

  /** What the backend answers: data, or an error whose message is recorded. */
  datatype Response<T> = Ok(data: T) | Err(message: string)

  class TodoStore {
    var todos: seq<Todo>
    var isLoading: bool
    var error: Option<string>

    constructor()
      ensures todos == [] && !isLoading && error.None?
    {
      todos := [];
      isLoading := false;
      error := None;
    }

    /** `set({ isLoading: true, error: null })`. */
    method BeginRequest()
      modifies this
      ensures isLoading && error.None? && todos == old(todos)
    {
      isLoading := true;
      error := None;
    }

    /** The `catch` branch: record the message, stop loading, keep the list. */
    method Fail(message: string)
      modifies this
      ensures error == Some(message) && !isLoading && todos == old(todos)
    {
      error := Some(message);
      isLoading := false;
    }

    /** `fetchTodos`: the rows arrive newest first and replace the list; no
        data gives the empty list. */
    method FetchTodos(response: Response<Option<seq<FetchedTodo>>>)
      modifies this
      ensures response.Err? ==> todos == old(todos) && error == Some(response.message) && !isLoading
      ensures response.Ok? ==> !isLoading && error.None?
      ensures response == Ok(None) ==> todos == []
      ensures response.Ok? && response.data.Some? ==>
                todos == Seqs.Map(response.data.value, MapTodoFromDB)
    {
      BeginRequest();
      match response {
        case Err(message) =>
          Fail(message);
        case Ok(data) =>
          todos := match data case Some(rows) => Seqs.Map(rows, MapTodoFromDB) case None => [];
          isLoading := false;
      }
    }

    /** `addTodo`: the insert request is the mapped partial todo (the user id
        put beside it is not among the mapped columns); on success the
        inserted row is put in front of the list. `request` is None when
        mapping threw before anything was sent. */
    method AddTodo(todoData: TodoPatch, userId: string, now: LocalDate, response: Response<FetchedTodo>)
      returns (request: Option<TodoWrite>)
      modifies this
      ensures request.Some? <==> MapTodoToDB(todoData, now).Success?
      ensures request.Some? ==> request.value == MapTodoToDB(todoData, now).value
      ensures request.None? ==> todos == old(todos) && error == Some(InvalidTimeValue) && !isLoading
      ensures request.Some? && response.Err? ==>
                todos == old(todos) && error == Some(response.message) && !isLoading
      ensures request.Some? && response.Ok? ==>
                todos == [MapTodoFromDB(response.data)] + old(todos) && error.None? && !isLoading
    {
      BeginRequest();
      var mapped := MapTodoToDB(todoData, now);
      if mapped.Failure? {
        Fail(mapped.message);
        return None;
      }
      request := Some(mapped.value);
      match response {
        case Err(message) =>
          Fail(message);
        case Ok(row) =>
          todos := [MapTodoFromDB(row)] + todos;
          isLoading := false;
      }
    }

    /** `updateTodo`: on success every todo with the id gets the updates
        merged in and a new `updatedAt`. */
    method UpdateTodo(id: string, updates: TodoPatch, now: LocalDate, response: Response<()>)
      returns (request: Option<TodoWrite>)
      modifies this
      ensures request.Some? <==> MapTodoToDB(updates, now).Success?
      ensures request.Some? ==> request.value == MapTodoToDB(updates, now).value
      ensures request.None? ==> todos == old(todos) && error == Some(InvalidTimeValue) && !isLoading
      ensures request.Some? && response.Err? ==>
                todos == old(todos) && error == Some(response.message) && !isLoading
      ensures request.Some? && response.Ok? ==>
                todos == UpdateWhere(old(todos), id, updates, now) && error.None? && !isLoading
    {
      BeginRequest();
      var mapped := MapTodoToDB(updates, now);
      if mapped.Failure? {
        Fail(mapped.message);
        return None;
      }
      request := Some(mapped.value);
      match response {
        case Err(message) =>
          Fail(message);
        case Ok(_) =>
          todos := UpdateWhere(todos, id, updates, now);
          isLoading := false;
      }
    }

    /** `deleteTodo`: on success every todo with the id is removed. */
    method DeleteTodo(id: string, response: Response<()>)
      modifies this
      ensures response.Err? ==> todos == old(todos) && error == Some(response.message) && !isLoading
      ensures response.Ok? ==> todos == RemoveId(old(todos), id) && error.None? && !isLoading
    {
      BeginRequest();
      match response {
        case Err(message) =>
          Fail(message);
        case Ok(_) =>
          todos := RemoveId(todos, id);
          isLoading := false;
      }
    }

    /** `toggleTodo`: nothing at all for an unknown id; otherwise an update
        that sets `completed` to the negation of the first match's flag. */
    method ToggleTodo(id: string, now: LocalDate, response: Response<()>)
      returns (request: Option<TodoWrite>)
      modifies this
      ensures FindById(old(todos), id).None? ==>
                request.None? && todos == old(todos) && isLoading == old(isLoading) && error == old(error)
      ensures FindById(old(todos), id).Some? ==>
                var flip := EmptyPatch.(completed := Some(!FindById(old(todos), id).value.completed));
                && request == Some(MapTodoToDB(flip, now).value)
                && (response.Err? ==> todos == old(todos) && error == Some(response.message) && !isLoading)
                && (response.Ok? ==> todos == UpdateWhere(old(todos), id, flip, now) && error.None? && !isLoading)
    {
      var todo := FindById(todos, id);
      if todo.None? {
        return None;
      }
      request := UpdateTodo(id, EmptyPatch.(completed := Some(!todo.value.completed)), now, response);
    }
  }

  /** A successful toggle flips `completed` of the todo with that id and
      bumps its `updatedAt`; everything else, the length and the order stay. */
  lemma ToggleFlipsMatching(todos: seq<Todo>, id: string, now: LocalDate)
    requires FindById(todos, id).Some?
    requires forall i, j :: 0 <= i < j < |todos| ==> todos[i].id != todos[j].id
    ensures var r := UpdateWhere(todos, id, EmptyPatch.(completed := Some(!FindById(todos, id).value.completed)), now);
            && |r| == |todos|
            && forall k :: 0 <= k < |todos| ==>
                 r[k] == if todos[k].id == id then todos[k].(completed := !todos[k].completed, updatedAt := now)
                         else todos[k]
  {
    var t := FindById(todos, id).value;
    forall k | 0 <= k < |todos| && todos[k].id == id
      ensures todos[k] == t
    {
    }
  }

  /** With several todos sharing the id, all of them get the negation of
      the first one's flag, not each its own. */
  lemma ToggleWithDuplicateIds(a: Todo, b: Todo, now: LocalDate)
    requires a.id == b.id && !a.completed && b.completed
    ensures var r := UpdateWhere([a, b], a.id, EmptyPatch.(completed := Some(!FindById([a, b], a.id).value.completed)), now);
            r[0].completed && r[1].completed
  {
  }

  /** Repeating a successful update changes nothing more. */
  lemma UpdateIdempotent(todos: seq<Todo>, id: string, updates: TodoPatch, now: LocalDate)
    ensures UpdateWhere(UpdateWhere(todos, id, updates, now), id, updates, now)
            == UpdateWhere(todos, id, updates, now)
  {
    var once := UpdateWhere(todos, id, updates, now);
    var twice := UpdateWhere(once, id, updates, now);
    forall k | 0 <= k < |todos|
      ensures twice[k] == once[k]
    {
      if todos[k].id == id {
        MergeIdempotent(todos[k], updates);
        assert Merge(todos[k], updates).(updatedAt := now) == Merge(Merge(todos[k], updates), updates).(updatedAt := now);
      }
    }
  }
}
