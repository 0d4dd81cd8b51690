/**
 * The week-2 todo service as the source runs it: the `todos` list and the
 * `nextId` counter are state that the handlers update step by step
 * (`nextId++`, `todos.push`, `task.status = ...`, `todos.splice`). Each method
 * is proved to leave exactly the state and answer that the functions of
 * TodoRouter describe, so everything proved there holds of this class.
 */
module TodoService {
  import opened Wrappers
  import opened Json
  import opened TaskTypes
  import opened TodoRouter
  import opened Strings

  /** `todos.findIndex(t => t.id === id)`, as the search loop it is. */
  method FindIndex(ts: seq<Task>, id: int) returns (index: int)
    ensures index == IndexOf(ts, id)
  {
    index := 0;
    while index < |ts|
      invariant 0 <= index <= |ts|
      invariant forall j :: 0 <= j < index ==> ts[j].id != id
    {
      if ts[index].id == id {
        return;
      }
      index := index + 1;
    }
    index := -1;
  }

  class TodoService {
    var todos: seq<Task>
    var nextId: int

    /** The state as a value, for the functions of TodoRouter. */
    ghost function State(): Store
      reads this
    {
      Store(todos, nextId)
    }

    ghost predicate Valid()
      reads this
    {
      State().Valid()
    }

    /** `let nextId = 1; const todos: Task[] = [];` */
    constructor ()
      ensures State() == InitialStore && Valid()
    {
      todos := [];
      nextId := 1;
    }

    method HandleGetTasks() returns (r: Response)
      ensures r == GetTasks(State())
    {
      r := Ok(TaskListData(todos), 200);
    }

    method HandleCreateTask(parsed: Option<JsonValue>) returns (r: Response)
      modifies this
      ensures Outcome(State(), r) == CreateTask(old(State()), ReadJson(parsed))
      ensures old(Valid()) ==> Valid()
    {
      var body := ReadJson(parsed);
      var command := ValidateCreateTask(body);
      if command.None? {
        return BadRequest(CreateBodyError);
      }
      ghost var before := State();
      var task := Task(nextId, command.value.title, command.value.description, Open);
      nextId := nextId + 1;
      todos := todos + [task];
      r := Ok(TaskData(task), 201);
      if before.Valid() {
        AppendKeepsInvariant(before, task);
      }
    }

    method HandleUpdateTask(path: string, parsed: Option<JsonValue>) returns (r: Response)
      modifies this
      ensures Outcome(State(), r) == UpdateTask(old(State()), path, ReadJson(parsed))
      ensures old(Valid()) ==> Valid()
    {
      ghost var expected := UpdateTask(State(), path, ReadJson(parsed));
      if Valid() {
        UpdateKeepsInvariant(State(), path, ReadJson(parsed));
      }
      var id := ParseTaskId(path);
      if !UsableId(id) {
        return BadRequest(UpdateIdError);
      }
      var status := ValidateUpdateStatus(ReadJson(parsed));
      if status.None? {
        return BadRequest(UpdateBodyError);
      }
      var index := FindIndex(todos, id.value);
      if index == -1 {
        return NotFound(TaskNotFound);
      }
      var task := todos[index].(status := status.value);
      todos := todos[index := task];
      r := Ok(TaskData(task), 200);
      assert expected == Outcome(State(), r);
    }

    method HandleDeleteTask(path: string) returns (r: Response)
      modifies this
      ensures Outcome(State(), r) == DeleteTask(old(State()), path)
      ensures old(Valid()) ==> Valid()
    {
      ghost var expected := DeleteTask(State(), path);
      if Valid() {
        DeleteKeepsInvariant(State(), path);
      }
      var id := ParseTaskId(path);
      if !UsableId(id) {
        return BadRequest(DeleteIdError);
      }
      var index := FindIndex(todos, id.value);
      if index == -1 {
        return NotFound(TaskNotFound);
      }
      todos := todos[..index] + todos[index + 1..];
      r := NoContent();
      assert expected == Outcome(State(), r);
    }

    /** `handleApiRoute`: None hands the request over to the static files. */
    method HandleApiRoute(verb: string, path: string, parsed: Option<JsonValue>) returns (r: Option<Response>)
      modifies this
      ensures var o := ApiRoute(old(State()), verb, path, ReadJson(parsed));
        && (o.None? ==> r.None? && State() == old(State()))
        && (o.Some? ==> r == Some(o.value.response) && State() == o.value.store)
      ensures old(Valid()) ==> Valid()
    {
      var route := Route(verb, path);
      match route {
        case RouteList =>
          var response := HandleGetTasks();
          r := Some(response);
        case RouteCreate =>
          var response := HandleCreateTask(parsed);
          r := Some(response);
        case RouteUpdate =>
          var response := HandleUpdateTask(path, parsed);
          r := Some(response);
        case RouteDelete =>
          var response := HandleDeleteTask(path);
          r := Some(response);
        case RouteUnknownApi =>
          r := Some(NotFound(RouteNotFound));
        case RouteStatic =>
          r := None;
      }
    }

    /** `router`: the API answer, or the static file server's. */
    method Router(verb: string, path: string, parsed: Option<JsonValue>) returns (reply: Reply)
      modifies this
      ensures (State(), reply) == TodoRouter.Router(old(State()), Request(verb, path, ReadJson(parsed)))
      ensures old(Valid()) ==> Valid()
    {
      var api := HandleApiRoute(verb, path, parsed);
      reply := if api.Some? then Api(api.value) else StaticFile;
    }
  }

  /**
   * One task's life through the API from an empty service: created as task 1,
   * marked done, deleted, after which the list is empty again.
   */
  method Walkthrough(title: string, description: string)
    returns (created: Response, updated: Response, deleted: Response, listed: Response)
    requires IsTrimmedText(title) && IsTrimmedText(description)
    ensures created == Ok(TaskData(Task(1, title, description, Open)), 201)
    ensures updated == Ok(TaskData(Task(1, title, description, Done)), 200)
    ensures deleted == NoContent()
    ensures listed == Ok(TaskListData([]), 200)
  {
    var service := new TodoService();
    var task := Task(1, title, description, Open);
    WalkCreate(title, description);
    created := service.HandleCreateTask(Some(CreateBody(title, description)));
    DoneBodyValid();
    WalkUpdate(task, DoneBody);
    updated := service.HandleUpdateTask(TaskPath(1), Some(DoneBody));
    WalkDelete(task.(status := Done));
    deleted := service.HandleDeleteTask(TaskPath(1));
    listed := service.HandleGetTasks();
  }

  function CreateBody(title: string, description: string): JsonValue
  {
    JObject(map["title" := JString(title), "description" := JString(description)])
  }

  const DoneBody := JObject(map["status" := JString("done")])

  lemma WalkCreate(title: string, description: string)
    requires IsTrimmedText(title) && IsTrimmedText(description)
    ensures CreateTask(InitialStore, CreateBody(title, description))
      == Outcome(Store([Task(1, title, description, Open)], 2), Ok(TaskData(Task(1, title, description, Open)), 201))
  {
    var body := CreateBody(title, description);
    assert StringField(body, "title") == Some(title);
    assert StringField(body, "description") == Some(description);
    TrimOfTrimmed(title);
    TrimOfTrimmed(description);
  }

  lemma WalkUpdate(task: Task, body: JsonValue)
    requires task.id == 1 && ValidateUpdateStatus(body) == Some(Done)
    ensures UpdateTask(Store([task], 2), TaskPath(1), body)
      == Outcome(Store([task.(status := Done)], 2), Ok(TaskData(task.(status := Done)), 200))
  {
    TaskPathRoundTrip(1);
    assert IndexOf([task], 1) == 0;
    assert [task][0 := task.(status := Done)] == [task.(status := Done)];
  }

  lemma DoneBodyValid()
    ensures ValidateUpdateStatus(DoneBody) == Some(Done)
  {
    assert StringField(DoneBody, "status") == Some("done");
  }

  lemma WalkDelete(task: Task)
    requires task.id == 1
    ensures DeleteTask(Store([task], 2), TaskPath(1)) == Outcome(Store([], 2), NoContent())
  {
    TaskPathRoundTrip(1);
    DeleteOnlyTask(task, TaskPath(1));
  }

  /** Deleting the only task by a path that names its id empties the list. */
  lemma DeleteOnlyTask(task: Task, path: string)
    requires task.id == 1 && ParseTaskId(path) == Some(1)
    ensures DeleteTask(Store([task], 2), path) == Outcome(Store([], 2), NoContent())
  {
    assert IndexOf([task], 1) == 0;
  }
}
