/**
 * The router of the joke dashboard API (week_4/joke-dashboard-api/src/router.ts):
 * the save-body validator, the CORS and JSON response envelope, the three
 * handlers and the route table with its preflight short-circuit and 404
 * fallback. The saved jokes live in a `SavedJokesStore`; the save handler is
 * the one place that changes it.
 */
module JokeRouter {
  import opened Wrappers
  import opened Strings
  import opened Json
  import opened JokeStore

  // ---------------------------------------------------------------------------
  // Validation
  // ---------------------------------------------------------------------------

  /**
   * `parseSaveBody`: the body must be an object whose `text`, `category`, `id`
   * and `fetchedAt` are all strings, none of them blank, and whose trimmed
   * `fetchedAt` the date parser accepts; the joke holds the four trimmed
   * strings. `Date.parse` is the parameter `dateParses`.
   */
  function ParseSaveBody(body: JsonValue, dateParses: string -> bool): (r: Option<Joke>)
    ensures r.Some? <==>
      && StringField(body, "text").Some? && !Blank(StringField(body, "text").value)
      && StringField(body, "category").Some? && !Blank(StringField(body, "category").value)
      && StringField(body, "id").Some? && !Blank(StringField(body, "id").value)
      && StringField(body, "fetchedAt").Some? && !Blank(StringField(body, "fetchedAt").value)
      && dateParses(Trim(StringField(body, "fetchedAt").value))
    ensures r.Some? ==>
      && r.value.text == Trim(StringField(body, "text").value)
      && r.value.category == Trim(StringField(body, "category").value)
      && r.value.id == Trim(StringField(body, "id").value)
      && r.value.fetchedAt == Trim(StringField(body, "fetchedAt").value)
      && IsTrimmedText(r.value.text) && IsTrimmedText(r.value.category)
      && IsTrimmedText(r.value.id) && IsTrimmedText(r.value.fetchedAt)
  {
    if !IsObject(body) then None
    else
      match (StringField(body, "text"), StringField(body, "category"), StringField(body, "id"), StringField(body, "fetchedAt"))
      case (Some(text), Some(category), Some(id), Some(fetchedAt)) =>
        if Trim(text) == "" || Trim(category) == "" || Trim(id) == "" || Trim(fetchedAt) == "" then None
        else if !dateParses(Trim(fetchedAt)) then None
        else Some(Joke(Trim(text), Trim(category), Trim(id), Trim(fetchedAt)))
      case _ => None
  }

  // ---------------------------------------------------------------------------
  // Responses
  // ---------------------------------------------------------------------------

  datatype Payload = JokePayload(joke: Joke) | JokeListPayload(jokes: seq<Joke>)

  /** `{ ok: true, data }` or `{ ok: false, error }`, where `error` is a plain string. */
  datatype Envelope = OkEnvelope(data: Payload) | ErrEnvelope(error: string)

  /** Status, header map and JSON body (None: the body is `null`). */
  datatype HttpResponse = HttpResponse(status: int, headers: map<string, string>, body: Option<Envelope>)

  /**
   * `corsHeaders()`: any origin may read the answers, with the three methods
   * the router serves and a `Content-Type` request header.
   */
  function CorsHeaders(): (h: map<string, string>)
    ensures h.Keys == {"Access-Control-Allow-Origin", "Access-Control-Allow-Methods", "Access-Control-Allow-Headers"}
    ensures h["Access-Control-Allow-Origin"] == "*"
    ensures h["Access-Control-Allow-Methods"] == "GET, POST, OPTIONS"
    ensures h["Access-Control-Allow-Headers"] == "Content-Type"
  {
    map[
      "Access-Control-Allow-Origin" := "*",
      "Access-Control-Allow-Methods" := "GET, POST, OPTIONS",
      "Access-Control-Allow-Headers" := "Content-Type"]
  }

  const JsonContentType := "application/json; charset=utf-8"

  /** The header map of `json(...)`: the JSON content type and the CORS headers. */
  const JsonHeaders: map<string, string> := map["content-type" := JsonContentType] + CorsHeaders()

  /**
   * `json(data, status)`: spreading the CORS headers after the content type
   * loses neither, since no CORS header is named `content-type`.
   */
  function JsonResponse(data: Envelope, status: int): (r: HttpResponse)
    ensures r.status == status && r.body == Some(data)
    ensures r.headers.Keys == CorsHeaders().Keys + {"content-type"}
    ensures r.headers["content-type"] == JsonContentType
    ensures HasCors(r)
  {
    HttpResponse(status, JsonHeaders, Some(data))
  }

  /** The headers every answer of the router carries: the three CORS headers. */
  ghost predicate HasCors(r: HttpResponse)
    ensures HasCors(r) ==> "Access-Control-Allow-Origin" in r.headers && r.headers["Access-Control-Allow-Origin"] == "*"
  {
    forall h :: h in CorsHeaders() ==> h in r.headers && r.headers[h] == CorsHeaders()[h]
  }

  const SaveBodyError := "Invalid save joke request body"
  const UnknownError := "Unknown error occurred"
  const RouteNotFound := "Not Found"

  // ---------------------------------------------------------------------------
  // Handlers
  // ---------------------------------------------------------------------------

  /**
   * What `fetchJokeFromExternalApi` settled to: the joke, or the rejection,
   * whose message is known only when an `Error` was thrown.
   */
  datatype FetchResult = Fetched(joke: Joke) | FetchFailed(message: Option<string>)

  /** `handleJokeFetching`: 200 with the joke, or 500 with the error message. */
  function HandleJokeFetching(fetched: FetchResult): (r: HttpResponse)
    ensures r.status == 200 <==> fetched.Fetched?
    ensures fetched.Fetched? ==> r.body == Some(OkEnvelope(JokePayload(fetched.joke)))
    ensures fetched.FetchFailed? ==>
      && r.status == 500
      && r.body.Some? && r.body.value.ErrEnvelope?
      && (fetched.message.Some? ==> r.body.value.error == fetched.message.value)
      && (fetched.message.None? ==> r.body.value.error == UnknownError)
    ensures r.headers == JsonHeaders
  {
    match fetched
    case Fetched(joke) => JsonResponse(OkEnvelope(JokePayload(joke)), 200)
    case FetchFailed(message) =>
      JsonResponse(ErrEnvelope(if message.Some? then message.value else UnknownError), 500)
  }

  /** `handleSavedJokesFetching`: 200 with the saved jokes, newest first; the store is only read. */
  method HandleSavedJokesFetching(store: SavedJokesStore) returns (r: HttpResponse)
    ensures r == JsonResponse(OkEnvelope(JokeListPayload(SortDesc(store.savedJokes))), 200)
  {
    var data := store.GetSortedJokes();
    r := JsonResponse(OkEnvelope(JokeListPayload(data)), 200);
  }

  /**
   * `handleJokeSaving`: a body that does not parse is answered with 400 and
   * the store is left alone; a valid one is appended once and echoed with 201.
   */
  method HandleJokeSaving(store: SavedJokesStore, parsed: Option<JsonValue>, dateParses: string -> bool)
    returns (r: HttpResponse)
    modifies store
    ensures var joke := ParseSaveBody(ReadJson(parsed), dateParses);
      && (joke.None? ==>
        r == JsonResponse(ErrEnvelope(SaveBodyError), 400) && store.savedJokes == old(store.savedJokes))
      && (joke.Some? ==>
        r == JsonResponse(OkEnvelope(JokePayload(joke.value)), 201)
        && store.savedJokes == old(store.savedJokes) + [joke.value])
  {
    var body := ReadJson(parsed);
    var parsedBody := ParseSaveBody(body, dateParses);
    if parsedBody.None? {
      return JsonResponse(ErrEnvelope(SaveBodyError), 400);
    }
    var newJoke := Joke(parsedBody.value.text, parsedBody.value.category, parsedBody.value.id, parsedBody.value.fetchedAt);
    store.AddJoke(newJoke);
    r := JsonResponse(OkEnvelope(JokePayload(newJoke)), 201);
  }

  // ---------------------------------------------------------------------------
  // Dispatch
  // ---------------------------------------------------------------------------

  datatype JokeRoute = Preflight | FetchJoke | ListSaved | SaveJoke | NoRoute

  /**
   * The route a request takes: `OPTIONS` on any path first, then the three
   * exact (path, method) pairs, then the 404 fallback; there is no static
   * file fallback.
   */
  function RouteOf(verb: string, path: string): (route: JokeRoute)
    ensures route == Preflight <==> verb == "OPTIONS"
    ensures route == FetchJoke <==> verb == "GET" && path == "/api/joke"
    ensures route == ListSaved <==> verb == "GET" && path == "/api/saved"
    ensures route == SaveJoke <==> verb == "POST" && path == "/api/saved"
    ensures route == NoRoute <==>
      verb != "OPTIONS" && !(verb == "GET" && (path == "/api/joke" || path == "/api/saved"))
      && !(verb == "POST" && path == "/api/saved")
  {
    if verb == "OPTIONS" then Preflight
    else if path == "/api/joke" && verb == "GET" then FetchJoke
    else if path == "/api/saved" && verb == "GET" then ListSaved
    else if path == "/api/saved" && verb == "POST" then SaveJoke
    else NoRoute
  }

  /** A request as the router sees it: method, `url.pathname` and the parsed body. */
  datatype JokeRequest = JokeRequest(verb: string, path: string, body: Option<JsonValue>)

  /**
   * `router`. The external fetch's outcome and the date parser are inputs.
   * Only a save changes the store, and every answer carries the CORS headers.
   */
  method Router(store: SavedJokesStore, req: JokeRequest, fetched: FetchResult, dateParses: string -> bool)
    returns (r: HttpResponse)
    modifies store
    ensures HasCors(r)
    ensures r.status != 204 ==> r.headers == JsonHeaders
    ensures RouteOf(req.verb, req.path) != SaveJoke ==> store.savedJokes == old(store.savedJokes)
    ensures match RouteOf(req.verb, req.path)
      case Preflight => r == HttpResponse(204, CorsHeaders(), None)
      case FetchJoke => r == HandleJokeFetching(fetched)
      case ListSaved => r == JsonResponse(OkEnvelope(JokeListPayload(SortDesc(old(store.savedJokes)))), 200)
      case SaveJoke =>
        var joke := ParseSaveBody(ReadJson(req.body), dateParses);
        && (joke.None? ==>
          r == JsonResponse(ErrEnvelope(SaveBodyError), 400) && store.savedJokes == old(store.savedJokes))
        && (joke.Some? ==>
          r == JsonResponse(OkEnvelope(JokePayload(joke.value)), 201)
          && store.savedJokes == old(store.savedJokes) + [joke.value])
      case NoRoute => r == JsonResponse(ErrEnvelope(RouteNotFound), 404)
  {
    var route := RouteOf(req.verb, req.path);
    match route {
      case Preflight =>
        r := HttpResponse(204, CorsHeaders(), None);
      case FetchJoke =>
        r := HandleJokeFetching(fetched);
      case ListSaved =>
        r := HandleSavedJokesFetching(store);
      case SaveJoke =>
        r := HandleJokeSaving(store, req.body, dateParses);
      case NoRoute =>
        r := JsonResponse(ErrEnvelope(RouteNotFound), 404);
    }
  }

  // ---------------------------------------------------------------------------
  // What the browser client sends and reads back
  // ---------------------------------------------------------------------------

  /** `JSON.stringify` of a joke. */
  function JokeJson(j: Joke): JsonValue
  {
    JObject(map["text" := JString(j.text), "category" := JString(j.category),
                "id" := JString(j.id), "fetchedAt" := JString(j.fetchedAt)])
  }

  /** The JSON text of an envelope, as the client parses it. */
  function EnvelopeJson(e: Envelope): JsonValue
  {
    match e
    case OkEnvelope(JokePayload(j)) => JObject(map["ok" := JBool(true), "data" := JokeJson(j)])
    case OkEnvelope(JokeListPayload(js)) =>
      JObject(map["ok" := JBool(true), "data" := JArray(seq(|js|, i requires 0 <= i < |js| => JokeJson(js[i])))])
    case ErrEnvelope(error) => JObject(map["ok" := JBool(false), "error" := JString(error)])
  }

  /**
   * A saved joke read back from its JSON is accepted as that same joke: its
   * strings are already trimmed and its time parses.
   */
  lemma SaveBodyRoundTrip(j: Joke, dateParses: string -> bool)
    requires IsTrimmedText(j.text) && IsTrimmedText(j.category)
    requires IsTrimmedText(j.id) && IsTrimmedText(j.fetchedAt)
    requires dateParses(j.fetchedAt)
    ensures ParseSaveBody(JokeJson(j), dateParses) == Some(j)
  {
    var body := JokeJson(j);
    assert StringField(body, "text") == Some(j.text);
    assert StringField(body, "category") == Some(j.category);
    assert StringField(body, "id") == Some(j.id);
    assert StringField(body, "fetchedAt") == Some(j.fetchedAt);
    TrimOfTrimmed(j.text);
    TrimOfTrimmed(j.category);
    TrimOfTrimmed(j.id);
    TrimOfTrimmed(j.fetchedAt);
  }

  /** A save body that could not be parsed is read as `null` and rejected: a 400, never a fault. */
  lemma UnparsedSaveBodyRejected(dateParses: string -> bool)
    ensures ParseSaveBody(ReadJson(None), dateParses).None?
  {
    assert StringField(JNull, "text").None?;
  }

  /** The body the client's `saveJoke` posts: only `text` and `category`. */
  function ClientSaveBody(text: string, category: string): JsonValue
  {
    JObject(map["text" := JString(text), "category" := JString(category)])
  }

  /**
   * The client's save request is never accepted: it carries no `id` and no
   * `fetchedAt`, which the server requires.
   */
  lemma ClientSaveRejected(text: string, category: string, dateParses: string -> bool)
    ensures ParseSaveBody(ClientSaveBody(text, category), dateParses).None?
  {
    var body := ClientSaveBody(text, category);
    assert "id" !in body.fields.Keys by {
      assert body.fields.Keys == {"text", "category"};
      assert "id" != "text" && "id" != "category";
    }
    assert StringField(body, "id").None?;
  }

  /** Reading a property path in JavaScript: a value (None is `undefined`), or a thrown `TypeError`. */
  datatype ClientRead = ReadValue(value: Option<JsonValue>) | ReadThrows

  /**
   * `payload.error.message` as the client reads it: it throws when `error` is
   * missing or `null`, and otherwise yields the `message` member of `error`,
   * which is `undefined` unless `error` is an object that has one.
   */
  function ClientErrorMessage(payload: JsonValue): (m: ClientRead)
    ensures m.ReadThrows? <==> Field(payload, "error").None? || Field(payload, "error") == Some(JNull)
    ensures m.ReadValue? ==> m.value == Field(Field(payload, "error").value, "message")
  {
    match Field(payload, "error")
    case None => ReadThrows
    case Some(JNull) => ReadThrows
    case Some(error) => ReadValue(Field(error, "message"))
  }

  /**
   * Every error the server sends is a plain string, so the message the client
   * looks for is always missing, however informative the server's text is.
   */
  lemma ClientLosesErrorMessage(e: Envelope)
    requires e.ErrEnvelope?
    ensures Field(EnvelopeJson(e), "error") == Some(JString(e.error))
    ensures ClientErrorMessage(EnvelopeJson(e)) == ReadValue(None)
  {
  }
}
