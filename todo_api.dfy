/** The to-do list API of app.py: a store backed by `todos.json` and the
    GET, POST and DELETE handlers of `/api/todos`. */
module TodoApi {
  import opened Common
  import opened IdList

  datatype Todo = Todo(id: int, task: string, createdAt: string)

  /** The JSON payload of a reply. */
  datatype Payload =
    | TodoList(todos: seq<Todo>)                 // GET: the bare array
    | Created(todo: Todo)                        // POST: the new record
    | Deleted(message: string, deletedTask: Todo) // DELETE: confirmation
    | Error(error: string)                       // 400 and 404
    | ServerError                                // 500 with the exception text

  datatype Reply = Reply(status: int, payload: Payload)

  const MissingTaskMessage := "Task field is required and cannot be empty"
  const NotFoundMessage := "Task not found"
  const DeletedMessage := "Task deleted successfully"

  /** The id of a to-do record. */
  function TodoId(t: Todo): int {
    t.id
  }

  /** `todos.json`. A corrupt file is not guarded against: `json.load`
      raises and the handler answers 500. */
  class TodoStore {
    var content: FileContent<Todo>

    constructor (initial: FileContent<Todo>)
      ensures content == initial
    {
      content := initial;
    }

    /** `save_todos`: the whole list replaces the file. */
    method Save(todos: seq<Todo>)
      modifies this
      ensures content == Parsed(todos)
    {
      content := Parsed(todos);
    }

    /** `load_todos`: the stored list; a missing file is first created
        holding `[]`; `None` stands for the exception a corrupt file raises. */
    method Load() returns (todos: Option<seq<Todo>>)
      modifies this
      ensures content == AfterLoad(old(content))
      ensures old(content).Corrupt? <==> todos.None?
      ensures old(content).Missing? ==> todos == Some([])
      ensures old(content).Parsed? ==> todos == Some(old(content).records)
    {
      match content
      case Missing =>
        Save([]);
        todos := Some([]);
      case Parsed(records) =>
        todos := Some(records);
      case Corrupt =>
        todos := None;
    }
  }

  /** Saving a list and loading it back gives the same list. */
  method SaveThenLoad(store: TodoStore, todos: seq<Todo>) returns (loaded: Option<seq<Todo>>)
    modifies store
    ensures loaded == Some(todos)
    ensures store.content == Parsed(todos)
  {
    store.Save(todos);
    loaded := store.Load();
  }

  /** The validation of a POST body: `not data or 'task' not in data or not
      data['task'].strip()`. A `task` that is not a string makes `.strip()`
      raise. */
  function TaskField(data: Option<map<string, Json>>): (c: Check<string>)
    ensures c.Reject? <==> (|| data.None?
                            || data.value == map[]
                            || "task" !in data.value
                            || (data.value["task"].JString? && AllSpace(data.value["task"].s)))
    ensures c.Crash? <==> (data.Some? && "task" in data.value && !data.value["task"].JString?)
    ensures c.Accept? ==> c.value != [] && c.value == Strip(data.value["task"].s)
  {
    if data.None? || data.value == map[] || "task" !in data.value then Reject
    else match data.value["task"]
      case JString(s) =>
        StripEmptyIff(s);
        if Strip(s) == [] then Reject else Accept(Strip(s))
      case _ => Crash
  }

  /** GET /api/todos: the stored list, whole and in stored order. */
  method GetAllTodos(store: TodoStore) returns (reply: Reply)
    modifies store
    ensures store.content == AfterLoad(old(store.content))
    ensures old(store.content).Corrupt? ==> reply == Reply(500, ServerError)
    ensures old(store.content).Missing? ==> reply == Reply(200, TodoList([]))
    ensures old(store.content).Parsed? ==> reply == Reply(200, TodoList(old(store.content).records))
  {
    var todos := store.Load();
    if todos.None? {
      return Reply(500, ServerError);
    }
    reply := Reply(200, TodoList(todos.value));
  }

  /** POST /api/todos. `now` is the creation timestamp the handler reads
      from the clock. */
  method CreateTodo(store: TodoStore, data: Option<map<string, Json>>, now: string) returns (reply: Reply)
    modifies store
    ensures old(store.content).Corrupt? ==>
              reply == Reply(500, ServerError) && store.content == old(store.content)
    ensures !old(store.content).Corrupt? ==>
              var todos := AfterLoad(old(store.content)).records;
              match TaskField(data)
              case Reject =>
                reply == Reply(400, Error(MissingTaskMessage)) && store.content == Parsed(todos)
              case Crash =>
                reply == Reply(500, ServerError) && store.content == Parsed(todos)
              case Accept(task) =>
                var todo := Todo(NextId(Ids(todos, TodoId)), task, now);
                reply == Reply(201, Created(todo)) && store.content == Parsed(todos + [todo])
  {
    var loaded := store.Load();
    if loaded.None? {
      return Reply(500, ServerError);
    }
    var todos := loaded.value;
    var field := TaskField(data);
    if field.Reject? {
      return Reply(400, Error(MissingTaskMessage));
    }
    if field.Crash? {
      return Reply(500, ServerError);
    }
    var newTask := Todo(NextId(Ids(todos, TodoId)), field.value, now);
    todos := todos + [newTask];
    store.Save(todos);
    reply := Reply(201, Created(newTask));
  }

  /** DELETE /api/todos/<todo_id>: the first record with that id is popped. */
  method DeleteTodo(store: TodoStore, todoId: nat) returns (reply: Reply)
    modifies store
    ensures old(store.content).Corrupt? ==>
              reply == Reply(500, ServerError) && store.content == old(store.content)
    ensures !old(store.content).Corrupt? ==>
              var todos := AfterLoad(old(store.content)).records;
              match FirstIndex(Ids(todos, TodoId), todoId)
              case None =>
                reply == Reply(404, Error(NotFoundMessage)) && store.content == Parsed(todos)
              case Some(i) =>
                reply == Reply(200, Deleted(DeletedMessage, todos[i]))
                && store.content == Parsed(RemoveAt(todos, i))
  {
    var loaded := store.Load();
    if loaded.None? {
      return Reply(500, ServerError);
    }
    var todos := loaded.value;
    var taskIndex := FirstMatch(Ids(todos, TodoId), todoId);
    if taskIndex.None? {
      return Reply(404, Error(NotFoundMessage));
    }
    var deletedTask := todos[taskIndex.value];
    todos := RemoveAt(todos, taskIndex.value);
    store.Save(todos);
    reply := Reply(200, Deleted(DeletedMessage, deletedTask));
  }

  // ---------------------------------------------------------------------
  // What the handlers keep true of the stored list

  /** A successful create gives an id above every stored id, and if the
      ids rose strictly in list order they still do. */
  lemma CreateKeepsIdsIncreasing(todos: seq<Todo>, task: string, now: string)
    requires Increasing(Ids(todos, TodoId))
    ensures forall t :: t in todos ==> t.id < NextId(Ids(todos, TodoId))
    ensures Increasing(Ids(todos + [Todo(NextId(Ids(todos, TodoId)), task, now)], TodoId))
  {
    forall t | t in todos ensures t.id < NextId(Ids(todos, TodoId)) {
      var k :| 0 <= k < |todos| && todos[k] == t;
      assert Ids(todos, TodoId)[k] == t.id;
    }
    IdsAppend(todos, Todo(NextId(Ids(todos, TodoId)), task, now), TodoId);
    AppendNextIdIncreasing(Ids(todos, TodoId));
  }

  /** A successful delete keeps strictly rising ids rising, so ids stay
      unique; the record removed is the only one with that id. */
  lemma DeleteKeepsIdsIncreasing(todos: seq<Todo>, todoId: int)
    requires Increasing(Ids(todos, TodoId))
    requires FirstIndex(Ids(todos, TodoId), todoId).Some?
    ensures Increasing(Ids(RemoveAt(todos, FirstIndex(Ids(todos, TodoId), todoId).value), TodoId))
    ensures Distinct(Ids(RemoveAt(todos, FirstIndex(Ids(todos, TodoId), todoId).value), TodoId))
    ensures todoId !in Ids(RemoveAt(todos, FirstIndex(Ids(todos, TodoId), todoId).value), TodoId)
  {
    var i := FirstIndex(Ids(todos, TodoId), todoId).value;
    var rest := RemoveAt(todos, i);
    IdsRemoveAt(todos, i, TodoId);
    RemoveAtIncreasing(Ids(todos, TodoId), i);
    IncreasingIsDistinct(Ids(rest, TodoId));
    IncreasingIsDistinct(Ids(todos, TodoId));
    forall k | 0 <= k < |rest| ensures Ids(rest, TodoId)[k] != todoId {
      var k' := if k < i then k else k + 1;
      assert Ids(rest, TodoId)[k] == Ids(todos, TodoId)[k'] && k' != i;
    }
  }
}
