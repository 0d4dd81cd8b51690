/**
 * The week-2 todo REST service (week_2/src/router.ts) as functions of the
 * in-memory state: the body validators, the path-id parser, the four handlers
 * and the first-match dispatch. The class in todo_service.dfy runs the same
 * handlers by updating its fields in place and is proved equal to these.
 */
module TodoRouter {
  import opened Wrappers
  import opened Strings
  import opened Json
  import opened TaskTypes

  // ---------------------------------------------------------------------------
  // Validation
  // ---------------------------------------------------------------------------

  /** The command a valid create body turns into. */
  datatype CreateTaskBody = CreateTaskBody(title: string, description: string)

  /**
   * `validateCreateTask`: the body must be an object whose `title` and
   * `description` are strings that are not blank; the command holds them trimmed.
   */
  function ValidateCreateTask(body: JsonValue): (r: Option<CreateTaskBody>)
    ensures r.Some? <==>
      && StringField(body, "title").Some? && !Blank(StringField(body, "title").value)
      && StringField(body, "description").Some? && !Blank(StringField(body, "description").value)
    ensures r.Some? ==>
      && r.value.title == Trim(StringField(body, "title").value)
      && r.value.description == Trim(StringField(body, "description").value)
      && IsTrimmedText(r.value.title) && IsTrimmedText(r.value.description)
  {
    if !IsObject(body) then None
    else
      match (StringField(body, "title"), StringField(body, "description"))
      case (Some(title), Some(description)) =>
        if Trim(title) == "" || Trim(description) == "" then None
        else Some(CreateTaskBody(Trim(title), Trim(description)))
      case _ => None
  }

  /**
   * `validateUpdateStatus`: the body must be an object whose `status` is exactly
   * one of the three literals.
   */
  function ValidateUpdateStatus(body: JsonValue): (r: Option<TaskStatus>)
    ensures r.Some? <==> exists st :: Field(body, "status") == Some(JString(StatusName(st)))
    ensures r.Some? ==> Field(body, "status") == Some(JString(StatusName(r.value)))
  {
    if !IsObject(body) then None
    else
      match StringField(body, "status")
      case Some(s) => ParseStatus(s)
      case None => None
  }

  /**
   * `parseTaskId`: `Number` of the last `/`-separated segment. The empty segment
   * reads as 0, a string of decimal digits as its value, anything else as NaN
   * (None).
   */
  function ParseTaskId(path: string): (r: Option<int>)
    ensures r.Some? <==> AllDigits(LastSegment(path))
    ensures r.Some? ==> r.value == DecimalValue(LastSegment(path))
  {
    var seg := LastSegment(path);
    if AllDigits(seg) then Some(DecimalValue(seg)) else None
  }

  /** The `if (!id)` guard of both id handlers: NaN and 0 are rejected. */
  predicate UsableId(id: Option<int>)
  {
    id.Some? && id.value != 0
  }

  /**
   * The paths the guard lets through: the last segment is a non-empty run of
   * digits that are not all zeros. So `/api/tasks/`, `/api/tasks/0`,
   * `/api/tasks/00` and `/api/tasks/x` are all turned away.
   */
  lemma IdGuard(path: string)
    ensures UsableId(ParseTaskId(path)) <==>
      && AllDigits(LastSegment(path))
      && exists i :: 0 <= i < |LastSegment(path)| && LastSegment(path)[i] != '0'
  {
  }

  /** The path the browser client builds for a task: `/api/tasks/${t.id}`. */
  function TaskPath(id: nat): string
  {
    "/api/tasks/" + DecimalString(id)
  }

  /** Every id the client puts in a task path is parsed back to itself. */
  lemma {:induction false} TaskPathRoundTrip(id: nat)
    ensures ParseTaskId(TaskPath(id)) == Some(id)
    ensures StartsWith(TaskPath(id), "/api/tasks/")
  {
    var digits := DecimalString(id);
    assert TaskPath(id) == "/api/tasks" + "/" + digits;
    LastSegmentAfterSlash("/api/tasks", digits);
    DecimalRoundTrip(id);
  }

  // ---------------------------------------------------------------------------
  // Responses
  // ---------------------------------------------------------------------------

  datatype Data = TaskData(task: Task) | TaskListData(tasks: seq<Task>)

  /** `{ ok: true, data }`, `{ ok: false, error: { message } }`, or no body at all. */
  datatype Body = OkBody(data: Data) | ErrBody(message: string) | NoBody

  datatype Response = Response(status: int, body: Body)

  /** The JSON of a task as `JSON.stringify` writes it. */
  function TaskJson(t: Task): JsonValue
  {
    JObject(map["id" := JNumber(t.id), "title" := JString(t.title),
                "description" := JString(t.description), "status" := JString(StatusName(t.status))])
  }

  function DataJson(d: Data): JsonValue
  {
    match d
    case TaskData(t) => TaskJson(t)
    case TaskListData(ts) => JArray(seq(|ts|, i requires 0 <= i < |ts| => TaskJson(ts[i])))
  }

  /** The body a client parses: the envelope object, or `null` when there is no body. */
  function Wire(r: Response): JsonValue
  {
    match r.body
    case OkBody(data) => JObject(map["ok" := JBool(true), "data" := DataJson(data)])
    case ErrBody(message) => JObject(map["ok" := JBool(false), "error" := JObject(map["message" := JString(message)])])
    case NoBody => JNull
  }

  /** `payload?.error?.message`, as the browser client reads an error; None is `undefined`. */
  function ErrorMessageField(payload: JsonValue): Option<JsonValue>
  {
    match Field(payload, "error")
    case Some(error) => Field(error, "message")
    case None => None
  }

  /** `ok(data, status)`: `{ ok: true, data }` with the given status. */
  function Ok(data: Data, status: int): (r: Response)
    ensures r.status == status
    ensures Field(Wire(r), "ok") == Some(JBool(true)) && Field(Wire(r), "data") == Some(DataJson(data))
  {
    Response(status, OkBody(data))
  }

  /** `badRequest(message)`: 400 with `{ ok: false, error: { message } }`; the client finds the message. */
  function BadRequest(message: string): (r: Response)
    ensures r.status == 400
    ensures Field(Wire(r), "ok") == Some(JBool(false))
    ensures ErrorMessageField(Wire(r)) == Some(JString(message))
  {
    Response(400, ErrBody(message))
  }

  /** `notFound(message)`: 404 with `{ ok: false, error: { message } }`; the client finds the message. */
  function NotFound(message: string): (r: Response)
    ensures r.status == 404
    ensures Field(Wire(r), "ok") == Some(JBool(false))
    ensures ErrorMessageField(Wire(r)) == Some(JString(message))
  {
    Response(404, ErrBody(message))
  }

  /** `new Response(null, { status: 204 })`: no body at all. */
  function NoContent(): (r: Response)
    ensures r.status == 204 && Wire(r) == JNull
  {
    Response(204, NoBody)
  }

  const CreateBodyError := "Invalid body. Expected: { title: string, description: string }"
  const UpdateIdError := "Invalid task id in URL"
  const UpdateBodyError := "Invalid body. Expected: { status: 'open' | 'in progress' | 'done' }"
  const DeleteIdError := "Invalid id in URL"
  const TaskNotFound := "Task not found"
  const RouteNotFound := "API route not found"

  // ---------------------------------------------------------------------------
  // State
  // ---------------------------------------------------------------------------

  /** The module-level `todos` list and the `nextId` counter. */
  datatype Store = Store(todos: seq<Task>, nextId: int)
  {
    /**
     * Every id was issued by the counter (it lies in 1 .. nextId - 1) and ids
     * increase strictly along the list: they are unique, and the list is in
     * creation order.
     */
    predicate Valid()
    {
      && nextId >= 1
      && (forall k :: 0 <= k < |todos| ==> 1 <= todos[k].id < nextId)
      && (forall k, l :: 0 <= k < l < |todos| ==> todos[k].id < todos[l].id)
    }
  }

  const InitialStore := Store([], 1)

  datatype Outcome = Outcome(store: Store, response: Response)

  /** `todos.findIndex(t => t.id === id)`: the first position holding `id`, or -1. */
  function IndexOf(ts: seq<Task>, id: int): (r: int)
    ensures -1 <= r < |ts|
    ensures r >= 0 ==> ts[r].id == id && forall j :: 0 <= j < r ==> ts[j].id != id
    ensures r == -1 <==> forall j :: 0 <= j < |ts| ==> ts[j].id != id
  {
    if ts == [] then -1
    else if ts[0].id == id then 0
    else
      var k := IndexOf(ts[1..], id);
      if k == -1 then -1 else k + 1
  }

  // ---------------------------------------------------------------------------
  // Handlers
  // ---------------------------------------------------------------------------

  /** `handleGetTasks`: the whole list, in insertion order, with 200. */
  function GetTasks(s: Store): (r: Response)
    ensures r.status == 200 && r.body.OkBody? && r.body.data == TaskListData(s.todos)
  {
    Ok(TaskListData(s.todos), 200)
  }

  /**
   * `handleCreateTask`: a valid body appends one open task carrying the next id
   * and answers 201 with it; an invalid one answers 400 and changes nothing.
   */
  function CreateTask(s: Store, body: JsonValue): (o: Outcome)
    ensures ValidateCreateTask(body).None? ==> o == Outcome(s, BadRequest(CreateBodyError))
    ensures ValidateCreateTask(body).Some? ==>
      var c := ValidateCreateTask(body).value;
      var t := Task(s.nextId, c.title, c.description, Open);
      && o.store == Store(s.todos + [t], s.nextId + 1)
      && o.response == Ok(TaskData(t), 201)
  {
    match ValidateCreateTask(body)
    case None => Outcome(s, BadRequest(CreateBodyError))
    case Some(c) =>
      var t := Task(s.nextId, c.title, c.description, Open);
      Outcome(Store(s.todos + [t], s.nextId + 1), Ok(TaskData(t), 201))
  }

  /**
   * A create keeps the invariant, and the task it creates has an id above
   * every id already in the list.
   */
  lemma CreateKeepsInvariant(s: Store, body: JsonValue)
    requires s.Valid()
    ensures var o := CreateTask(s, body);
      && o.store.Valid()
      && (o.response.status == 201 ==>
            forall k :: 0 <= k < |s.todos| ==> s.todos[k].id < o.response.body.data.task.id)
  {
    match ValidateCreateTask(body)
    case Some(c) => AppendKeepsInvariant(s, Task(s.nextId, c.title, c.description, Open));
    case None =>
  }

  lemma AppendKeepsInvariant(s: Store, t: Task)
    requires s.Valid() && t.id == s.nextId
    ensures Store(s.todos + [t], s.nextId + 1).Valid()
  {
    var ts := s.todos + [t];
    assert forall k :: 0 <= k < |s.todos| ==> ts[k] == s.todos[k];
  }

  /**
   * `handleUpdateTask`: checks the id, then the body, then that the task
   * exists; on success only that task's status changes and it is returned with 200.
   */
  function UpdateTask(s: Store, path: string, body: JsonValue): (o: Outcome)
    ensures o.store.nextId == s.nextId
    ensures o.response.status != 200 ==> o.store == s
    ensures !UsableId(ParseTaskId(path)) ==> o.response == BadRequest(UpdateIdError)
    ensures UsableId(ParseTaskId(path)) && ValidateUpdateStatus(body).None? ==>
      o.response == BadRequest(UpdateBodyError)
    ensures UsableId(ParseTaskId(path)) && ValidateUpdateStatus(body).Some? ==>
      var k := IndexOf(s.todos, ParseTaskId(path).value);
      if k == -1 then o.response == NotFound(TaskNotFound)
      else
        && |o.store.todos| == |s.todos|
        && o.store.todos[k] == s.todos[k].(status := ValidateUpdateStatus(body).value)
        && (forall j :: 0 <= j < |s.todos| && j != k ==> o.store.todos[j] == s.todos[j])
        && o.response == Ok(TaskData(o.store.todos[k]), 200)
  {
    var id := ParseTaskId(path);
    if !UsableId(id) then Outcome(s, BadRequest(UpdateIdError))
    else
      match ValidateUpdateStatus(body)
      case None => Outcome(s, BadRequest(UpdateBodyError))
      case Some(st) =>
        var k := IndexOf(s.todos, id.value);
        if k == -1 then Outcome(s, NotFound(TaskNotFound))
        else
          var t := s.todos[k].(status := st);
          ReplaceAt(s.todos, k, t);
          Outcome(Store(s.todos[k := t], s.nextId), Ok(TaskData(t), 200))
  }

  lemma ReplaceAt(ts: seq<Task>, k: nat, t: Task)
    requires k < |ts|
    ensures |ts[k := t]| == |ts| && ts[k := t][k] == t
    ensures forall j :: 0 <= j < |ts| && j != k ==> ts[k := t][j] == ts[j]
  {
  }

  /** An update keeps ids, order and counter, so it keeps the invariant. */
  lemma UpdateKeepsInvariant(s: Store, path: string, body: JsonValue)
    requires s.Valid()
    ensures UpdateTask(s, path, body).store.Valid()
  {
    var o := UpdateTask(s, path, body);
    if o.response.status == 200 {
      var k := IndexOf(s.todos, ParseTaskId(path).value);
      assert forall j :: 0 <= j < |s.todos| ==> o.store.todos[j].id == s.todos[j].id;
    }
  }

  /**
   * `handleDeleteTask`: removes the task with the id from the path, keeping the
   * others in order, and answers 204 with no body; a bad id is 400 and an
   * absent one 404, both leaving the list alone. The counter is never wound back.
   */
  function DeleteTask(s: Store, path: string): (o: Outcome)
    ensures o.store.nextId == s.nextId
    ensures o.response.status != 204 ==> o.store == s
    ensures !UsableId(ParseTaskId(path)) ==> o.response == BadRequest(DeleteIdError)
    ensures UsableId(ParseTaskId(path)) ==>
      var k := IndexOf(s.todos, ParseTaskId(path).value);
      if k == -1 then o.response == NotFound(TaskNotFound)
      else o.response == NoContent() && o.store.todos == s.todos[..k] + s.todos[k + 1..]
  {
    var id := ParseTaskId(path);
    if !UsableId(id) then Outcome(s, BadRequest(DeleteIdError))
    else
      var k := IndexOf(s.todos, id.value);
      if k == -1 then Outcome(s, NotFound(TaskNotFound))
      else
        Outcome(Store(s.todos[..k] + s.todos[k + 1..], s.nextId), NoContent())
  }

  /**
   * A body that could not be parsed is read as `null`, which no validator
   * accepts: the answer is the handler's 400, never a fault, and nothing changes.
   */
  lemma UnparsedBodyRejected(s: Store, path: string)
    ensures CreateTask(s, ReadJson(None)) == Outcome(s, BadRequest(CreateBodyError))
    ensures UsableId(ParseTaskId(path)) ==>
      UpdateTask(s, path, ReadJson(None)) == Outcome(s, BadRequest(UpdateBodyError))
  {
    assert StringField(JNull, "title").None?;
    assert StringField(JNull, "status").None?;
  }

  /**
   * A delete keeps the invariant, and afterwards no task carries the deleted
   * id: ids are unique, so exactly the one task with that id went away.
   */
  lemma DeleteKeepsInvariant(s: Store, path: string)
    requires s.Valid()
    ensures var o := DeleteTask(s, path);
      && o.store.Valid()
      && (o.response.status == 204 ==>
            forall j :: 0 <= j < |o.store.todos| ==> o.store.todos[j].id != ParseTaskId(path).value)
  {
    var o := DeleteTask(s, path);
    if o.response.status == 204 {
      var k := IndexOf(s.todos, ParseTaskId(path).value);
      assert o.store.todos == s.todos[..k] + s.todos[k + 1..];
      RemoveAtKeepsInvariant(s, k);
    }
  }

  /** Taking out the task at `k` keeps the invariant and leaves no task with its id. */
  lemma RemoveAtKeepsInvariant(s: Store, k: int)
    requires s.Valid() && 0 <= k < |s.todos|
    ensures var rest := s.todos[..k] + s.todos[k + 1..];
      && Store(rest, s.nextId).Valid()
      && forall j :: 0 <= j < |rest| ==> rest[j].id != s.todos[k].id
  {
    var rest := s.todos[..k] + s.todos[k + 1..];
    assert forall j :: 0 <= j < |rest| ==> rest[j] == s.todos[if j < k then j else j + 1];
  }

  // ---------------------------------------------------------------------------
  // Dispatch
  // ---------------------------------------------------------------------------

  datatype TaskRoute =
    | RouteList | RouteCreate | RouteUpdate | RouteDelete | RouteUnknownApi | RouteStatic

  /**
   * `handleApiRoute`'s if-chain, as the route it picks. The tests are disjoint,
   * so the first match is the only match: each route is characterised on its own.
   */
  function Route(verb: string, path: string): (r: TaskRoute)
    ensures r == RouteList <==> path == "/api/tasks" && verb == "GET"
    ensures r == RouteCreate <==> path == "/api/tasks" && verb == "POST"
    ensures r == RouteUpdate <==> StartsWith(path, "/api/tasks/") && verb == "PUT"
    ensures r == RouteDelete <==> StartsWith(path, "/api/tasks/") && verb == "DELETE"
    ensures r == RouteStatic <==> !StartsWith(path, "/api/")
  {
    if path == "/api/tasks" && verb == "GET" then RouteList
    else if path == "/api/tasks" && verb == "POST" then RouteCreate
    else if StartsWith(path, "/api/tasks/") && verb == "PUT" then RouteUpdate
    else if StartsWith(path, "/api/tasks/") && verb == "DELETE" then RouteDelete
    else if StartsWith(path, "/api/") then RouteUnknownApi
    else RouteStatic
  }

  /**
   * `handleApiRoute`: the handler the route names, a 404 for any other API
   * path, and None (hand over to the static files) for every non-API path.
   */
  function ApiRoute(s: Store, verb: string, path: string, body: JsonValue): (r: Option<Outcome>)
    ensures r.None? <==> !StartsWith(path, "/api/")
    ensures Route(verb, path) == RouteList ==> r == Some(Outcome(s, GetTasks(s)))
    ensures Route(verb, path) == RouteCreate ==> r == Some(CreateTask(s, body))
    ensures Route(verb, path) == RouteUpdate ==> r == Some(UpdateTask(s, path, body))
    ensures Route(verb, path) == RouteDelete ==> r == Some(DeleteTask(s, path))
    ensures Route(verb, path) == RouteUnknownApi ==> r == Some(Outcome(s, NotFound(RouteNotFound)))
  {
    match Route(verb, path)
    case RouteList => Some(Outcome(s, GetTasks(s)))
    case RouteCreate => Some(CreateTask(s, body))
    case RouteUpdate => Some(UpdateTask(s, path, body))
    case RouteDelete => Some(DeleteTask(s, path))
    case RouteUnknownApi => Some(Outcome(s, NotFound(RouteNotFound)))
    case RouteStatic => None
  }

  /** What `router` answers: an API response, or whatever the static file server sends. */
  datatype Reply = Api(response: Response) | StaticFile

  datatype Request = Request(verb: string, path: string, body: JsonValue)

  /** `router`: the API answer if there is one, otherwise the static fallback, which leaves the state alone. */
  function Router(s: Store, req: Request): (r: (Store, Reply))
    ensures r.1.StaticFile? <==> !StartsWith(req.path, "/api/")
    ensures r.1.StaticFile? ==> r.0 == s
    ensures var api := ApiRoute(s, req.verb, req.path, req.body);
      api.Some? ==> r == (api.value.store, Api(api.value.response))
  {
    match ApiRoute(s, req.verb, req.path, req.body)
    case Some(o) => (o.store, Api(o.response))
    case None => (s, StaticFile)
  }

  /** Every request keeps the invariant and never winds the counter back. */
  lemma RouterKeepsInvariant(s: Store, req: Request)
    requires s.Valid()
    ensures Router(s, req).0.Valid() && Router(s, req).0.nextId >= s.nextId
  {
    match Route(req.verb, req.path)
    case RouteCreate => CreateKeepsInvariant(s, req.body);
    case RouteUpdate => UpdateKeepsInvariant(s, req.path, req.body);
    case RouteDelete => DeleteKeepsInvariant(s, req.path);
    case _ =>
  }

  // ---------------------------------------------------------------------------
  // Runs of many requests
  // ---------------------------------------------------------------------------

  /** The state after serving `reqs` in order, one request to completion at a time. */
  function Run(s: Store, reqs: seq<Request>): Store
    decreases |reqs|
  {
    if reqs == [] then s else Run(Router(s, reqs[0]).0, reqs[1..])
  }

  /** The replies sent while serving `reqs` in order. */
  function Replies(s: Store, reqs: seq<Request>): seq<Reply>
    decreases |reqs|
  {
    if reqs == [] then [] else [Router(s, reqs[0]).1] + Replies(Router(s, reqs[0]).0, reqs[1..])
  }

  /** How many of `rs` are API responses with the given status. */
  function CountStatus(rs: seq<Reply>, status: int): nat
  {
    if rs == [] then 0
    else (if rs[0].Api? && rs[0].response.status == status then 1 else 0) + CountStatus(rs[1..], status)
  }

  /** Any run of requests keeps the invariant and never winds the counter back. */
  lemma {:induction false} RunKeepsInvariant(s: Store, reqs: seq<Request>)
    requires s.Valid()
    ensures Run(s, reqs).Valid() && Run(s, reqs).nextId >= s.nextId
    decreases |reqs|
  {
    if reqs != [] {
      RouterKeepsInvariant(s, reqs[0]);
      RunKeepsInvariant(Router(s, reqs[0]).0, reqs[1..]);
    }
  }

  /**
   * Ids are never reused: whatever was created or deleted in between, a task
   * created after a run gets an id above every id that existed before it.
   */
  lemma IdsNeverReused(s: Store, reqs: seq<Request>, body: JsonValue)
    requires s.Valid()
    requires CreateTask(Run(s, reqs), body).response.status == 201
    ensures var newId := CreateTask(Run(s, reqs), body).response.body.data.task.id;
      newId >= s.nextId && forall k :: 0 <= k < |s.todos| ==> s.todos[k].id < newId
  {
    RunKeepsInvariant(s, reqs);
    CreateKeepsInvariant(Run(s, reqs), body);
  }

  /** The list grew by one on a 201, shrank by one on a 204, and kept its length otherwise. */
  predicate SizeStep(before: Store, o: Outcome)
  {
    |o.store.todos| == |before.todos|
      + (if o.response.status == 201 then 1 else 0)
      - (if o.response.status == 204 then 1 else 0)
  }

  lemma CreateSize(s: Store, body: JsonValue)
    ensures SizeStep(s, CreateTask(s, body))
  {
  }

  lemma UpdateSize(s: Store, path: string, body: JsonValue)
    ensures SizeStep(s, UpdateTask(s, path, body))
  {
  }

  lemma DeleteSize(s: Store, path: string)
    ensures SizeStep(s, DeleteTask(s, path))
  {
    var o := DeleteTask(s, path);
    if o.response.status == 204 {
      var k := IndexOf(s.todos, ParseTaskId(path).value);
      assert o.store.todos == s.todos[..k] + s.todos[k + 1..];
    }
  }

  /** One request changes the list length by +1 exactly on a 201 and by -1 exactly on a 204. */
  lemma RouterSizeChange(s: Store, req: Request)
    ensures var (s', r) := Router(s, req);
      |s'.todos| == |s.todos|
        + (if r.Api? && r.response.status == 201 then 1 else 0)
        - (if r.Api? && r.response.status == 204 then 1 else 0)
  {
    match Route(req.verb, req.path)
    case RouteCreate => CreateSize(s, req.body);
    case RouteUpdate => UpdateSize(s, req.path, req.body);
    case RouteDelete => DeleteSize(s, req.path);
    case _ =>
  }

  /** After a run, the list holds the tasks it started with, plus one per 201, minus one per 204. */
  lemma {:induction false} RunSize(s: Store, reqs: seq<Request>)
    ensures |Run(s, reqs).todos| + CountStatus(Replies(s, reqs), 204)
         == |s.todos| + CountStatus(Replies(s, reqs), 201)
    decreases |reqs|
  {
    if reqs != [] {
      var (s', r) := Router(s, reqs[0]);
      RouterSizeChange(s, reqs[0]);
      RunSize(s', reqs[1..]);
      assert Replies(s, reqs) == [r] + Replies(s', reqs[1..]);
      assert ([r] + Replies(s', reqs[1..]))[1..] == Replies(s', reqs[1..]);
    }
  }
}
