/** The task API of main.py: a store backed by `tasks.json` and the GET,
    POST and DELETE handlers of `/tasks`, each answering inside a
    `{success, ...}` envelope. */
module TaskApi {
  import opened Common
  import opened IdList

  datatype Task = Task(id: int, title: string, description: string, completed: Json, createdAt: string)

  /** The fields of a reply's JSON object other than `success`. */
  datatype Body =
    | Listing(tasks: seq<Task>, count: int)        // GET
    | CreatedTask(task: Task)                      // POST
    | Removed(message: string, deletedTask: Task)  // DELETE
    | Failure(error: string)                       // 400 and 404
    | ServerError                                  // 500 with the exception text
  {
    /** The envelope's `success` flag. */
    function Success(): bool {
      Listing? || CreatedTask? || Removed?
    }
  }

  datatype Reply = Reply(status: int, body: Body)

  /** The envelope agrees with the status: `success` is true on a 200 or
      201 reply and false on every other. */
  predicate EnvelopeOk(reply: Reply) {
    reply.body.Success() <==> (reply.status == 200 || reply.status == 201)
  }

  /** A POST request as the handler sees it: the `is_json` flag and the
      parsed body (`None` for a JSON `null`). */
  datatype Request = Request(isJson: bool, data: Option<map<string, Json>>)

  const NotJsonMessage := "Request must be in JSON format"
  const MissingTitleMessage := "Task title is required and cannot be empty"

  function NotFoundMessage(taskId: nat): string {
    "Task with ID " + Decimal(taskId) + " not found"
  }

  function DeletedMessage(title: string): string {
    "Task \"" + title + "\" deleted successfully"
  }

  /** The id of a task record. */
  function TaskId(t: Task): int {
    t.id
  }

  /** What `load_tasks` returns for a given file: a corrupt file reads as
      an empty list. */
  function Stored(f: FileContent<Task>): (tasks: seq<Task>)
    ensures f.Parsed? ==> tasks == f.records
    ensures !f.Parsed? ==> tasks == []
  {
    if f.Parsed? then f.records else []
  }

  /** `tasks.json`. */
  class TaskStore {
    var content: FileContent<Task>

    constructor (initial: FileContent<Task>)
      ensures content == initial
    {
      content := initial;
    }

    /** `save_tasks`: the whole list replaces the file. */
    method Save(tasks: seq<Task>)
      modifies this
      ensures content == Parsed(tasks)
    {
      content := Parsed(tasks);
    }

    /** `load_tasks`: a missing file is created holding `[]`; a file that
        does not parse yields `[]` and is left as it is. */
    method Load() returns (tasks: seq<Task>)
      modifies this
      ensures tasks == Stored(old(content))
      ensures content == AfterLoad(old(content))
      ensures old(content).Corrupt? ==> content == Corrupt
    {
      match content
      case Missing =>
        Save([]);
        tasks := [];
      case Parsed(records) =>
        tasks := records;
      case Corrupt =>
        tasks := [];
    }
  }

  /** Saving a list and loading it back gives the same list. */
  method SaveThenLoad(store: TaskStore, tasks: seq<Task>) returns (loaded: seq<Task>)
    modifies store
    ensures loaded == tasks
    ensures store.content == Parsed(tasks)
  {
    store.Save(tasks);
    loaded := store.Load();
  }

  /** The fields a valid POST body supplies. */
  datatype NewFields = NewFields(title: string, description: string, completed: Json)

  /** The checks and defaults of a POST body that is a JSON object:
      `title` must be present and not blank after stripping; `description`
      defaults to `''` and is stripped; `completed` defaults to `False` and
      is passed through. `.strip()` on a non-string raises. */
  function TaskFields(data: map<string, Json>): (c: Check<NewFields>)
    ensures c.Reject? <==> ("title" !in data || (data["title"].JString? && AllSpace(data["title"].s)))
    ensures c.Crash? <==> (&& "title" in data
                           && (!data["title"].JString?
                               || (!AllSpace(data["title"].s)
                                   && "description" in data && !data["description"].JString?)))
    ensures c.Accept? ==>
              && c.value.title != []
              && c.value.title == Strip(data["title"].s)
              && c.value.description == (if "description" in data then Strip(data["description"].s) else "")
              && c.value.completed == (if "completed" in data then data["completed"] else JBool(false))
  {
    if "title" !in data then Reject
    else match data["title"]
      case JString(t) =>
        StripEmptyIff(t);
        if Strip(t) == [] then Reject
        else if "description" in data && !data["description"].JString? then Crash
        else
          var description := if "description" in data then Strip(data["description"].s) else "";
          var completed := if "completed" in data then data["completed"] else JBool(false);
          Accept(NewFields(Strip(t), description, completed))
      case _ => Crash
  }

  /** GET /tasks: the stored list in order, with its length as `count`. */
  method GetAllTasks(store: TaskStore) returns (reply: Reply)
    modifies store
    ensures store.content == AfterLoad(old(store.content))
    ensures reply.status == 200 && EnvelopeOk(reply)
    ensures reply.body == Listing(Stored(old(store.content)), |Stored(old(store.content))|)
  {
    var tasks := store.Load();
    reply := Reply(200, Listing(tasks, |tasks|));
  }

  /** POST /tasks. `now` is the creation timestamp the handler reads from
      the clock. */
  method CreateTask(store: TaskStore, request: Request, now: string) returns (reply: Reply)
    modifies store
    ensures EnvelopeOk(reply)
    ensures var tasks := Stored(old(store.content));
            if !request.isJson then
              reply == Reply(400, Failure(NotJsonMessage)) && store.content == AfterLoad(old(store.content))
            else if request.data.None? then
              reply == Reply(500, ServerError) && store.content == AfterLoad(old(store.content))
            else match TaskFields(request.data.value)
              case Reject =>
                reply == Reply(400, Failure(MissingTitleMessage))
                && store.content == AfterLoad(old(store.content))
              case Crash =>
                reply == Reply(500, ServerError) && store.content == AfterLoad(old(store.content))
              case Accept(f) =>
                var task := Task(NextId(Ids(tasks, TaskId)), f.title, f.description, f.completed, now);
                reply == Reply(201, CreatedTask(task)) && store.content == Parsed(tasks + [task])
  {
    var tasks := store.Load();
    if !request.isJson {
      return Reply(400, Failure(NotJsonMessage));
    }
    var data := request.data;
    if data.None? {
      // `'title' not in None` raises
      return Reply(500, ServerError);
    }
    var fields := TaskFields(data.value);
    if fields.Reject? {
      return Reply(400, Failure(MissingTitleMessage));
    }
    if fields.Crash? {
      return Reply(500, ServerError);
    }
    var f := fields.value;
    var newTask := Task(NextId(Ids(tasks, TaskId)), f.title, f.description, f.completed, now);
    tasks := tasks + [newTask];
    store.Save(tasks);
    reply := Reply(201, CreatedTask(newTask));
  }

  /** DELETE /tasks/<task_id>: the first task with that id is popped. */
  method DeleteTask(store: TaskStore, taskId: nat) returns (reply: Reply)
    modifies store
    ensures EnvelopeOk(reply)
    ensures var tasks := Stored(old(store.content));
            match FirstIndex(Ids(tasks, TaskId), taskId)
            case None =>
              reply == Reply(404, Failure(NotFoundMessage(taskId)))
              && store.content == AfterLoad(old(store.content))
            case Some(i) =>
              reply == Reply(200, Removed(DeletedMessage(tasks[i].title), tasks[i]))
              && store.content == Parsed(RemoveAt(tasks, i))
  {
    var tasks := store.Load();
    var taskIndex := FirstMatch(Ids(tasks, TaskId), taskId);
    if taskIndex.None? {
      return Reply(404, Failure(NotFoundMessage(taskId)));
    }
    var deletedTask := tasks[taskIndex.value];
    tasks := RemoveAt(tasks, taskIndex.value);
    store.Save(tasks);
    reply := Reply(200, Removed(DeletedMessage(deletedTask.title), deletedTask));
  }

  // ---------------------------------------------------------------------
  // What the handlers promise, stated on values

  /** The 404 message names the id asked for: two different ids never get
      the same message. */
  lemma NotFoundNamesId(m: nat, n: nat)
    ensures NotFoundMessage(m) == NotFoundMessage(n) <==> m == n
  {
    var p := "Task with ID ";
    var q := " not found";
    if NotFoundMessage(m) == NotFoundMessage(n) {
      var a, b := Decimal(m), Decimal(n);
      assert |a| == |b|;
      assert a == NotFoundMessage(m)[|p|..|p| + |a|];
      assert b == NotFoundMessage(n)[|p|..|p| + |b|];
      DecimalInjective(m, n);
    }
  }

  /** The delete confirmation embeds the removed task's title verbatim. */
  lemma DeletedMessageEmbedsTitle(title: string)
    ensures var msg := DeletedMessage(title);
            |msg| == |title| + 28 && msg[6..6 + |title|] == title
  {
  }

  /** A create gives an id above every stored id, and if the ids rose
      strictly in list order they still do. */
  lemma CreateKeepsIdsIncreasing(tasks: seq<Task>, f: NewFields, now: string)
    requires Increasing(Ids(tasks, TaskId))
    ensures forall t :: t in tasks ==> t.id < NextId(Ids(tasks, TaskId))
    ensures Increasing(Ids(tasks + [Task(NextId(Ids(tasks, TaskId)), f.title, f.description, f.completed, now)], TaskId))
  {
    var task := Task(NextId(Ids(tasks, TaskId)), f.title, f.description, f.completed, now);
    forall t | t in tasks ensures t.id < NextId(Ids(tasks, TaskId)) {
      var k :| 0 <= k < |tasks| && tasks[k] == t;
      assert Ids(tasks, TaskId)[k] == t.id;
    }
    IdsAppend(tasks, task, TaskId);
    AppendNextIdIncreasing(Ids(tasks, TaskId));
  }

  /** A delete removes one task and no other: the removed one is the first
      with that id, the rest keep their order, and rising ids stay rising. */
  lemma DeleteRemovesOnlyFirstMatch(tasks: seq<Task>, taskId: int)
    requires FirstIndex(Ids(tasks, TaskId), taskId).Some?
    ensures var i := FirstIndex(Ids(tasks, TaskId), taskId).value;
            && tasks[i].id == taskId
            && (forall k :: 0 <= k < i ==> tasks[k].id != taskId)
            && multiset(RemoveAt(tasks, i)) + multiset{tasks[i]} == multiset(tasks)
            && (Increasing(Ids(tasks, TaskId)) ==> Increasing(Ids(RemoveAt(tasks, i), TaskId)))
  {
    var i := FirstIndex(Ids(tasks, TaskId), taskId).value;
    IdsRemoveAt(tasks, i, TaskId);
    if Increasing(Ids(tasks, TaskId)) {
      RemoveAtIncreasing(Ids(tasks, TaskId), i);
    }
  }

  /** A full body whose title and description neither start nor end with
      whitespace is accepted with its fields unchanged. */
  lemma PlainBody(title: string, description: string, completed: Json)
    requires title != [] && !IsSpace(title[0]) && !IsSpace(title[|title| - 1])
    requires description == [] || (!IsSpace(description[0]) && !IsSpace(description[|description| - 1]))
    ensures var data := map["title" := JString(title), "description" := JString(description),
                            "completed" := completed];
            TaskFields(data) == Accept(NewFields(title, description, completed))
  {
    var data := map["title" := JString(title), "description" := JString(description),
                    "completed" := completed];
    assert |"title"| == 5 && |"description"| == 11 && |"completed"| == 9;
    assert data["title"] == JString(title);
    assert "description" in data && data["description"] == JString(description);
    assert "completed" in data && data["completed"] == completed;
    assert TrimStart(title) == title && TrimEnd(title) == title;
    if description != [] {
      assert TrimStart(description) == description && TrimEnd(description) == description;
    }
  }

  /** The body the smoke script posts is accepted unchanged, and the first
      create on an empty store gets id 1. */
  lemma FirstCreateGetsIdOne(now: string)
    ensures var data := map["title" := JString("Buy groceries"),
                            "description" := JString("Milk, bread, eggs, and fruits"),
                            "completed" := JBool(false)];
            && TaskFields(data) == Accept(NewFields("Buy groceries", "Milk, bread, eggs, and fruits", JBool(false)))
            && NextId(Ids([], TaskId)) == 1
  {
    PlainBody("Buy groceries", "Milk, bread, eggs, and fruits", JBool(false));
  }

  /** A body holding only a title that neither starts nor ends with
      whitespace is accepted with that title unchanged, an empty
      description and `completed` false. */
  lemma PlainTitle(title: string)
    requires title != [] && !IsSpace(title[0]) && !IsSpace(title[|title| - 1])
    ensures TaskFields(map["title" := JString(title)]) == Accept(NewFields(title, "", JBool(false)))
  {
    assert TrimStart(title) == title;
    assert TrimEnd(title) == title;
  }
}
