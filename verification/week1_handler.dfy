/**
 * The week-1 todo server (week-1/src/main.ts): a fixed task list and a handler
 * that serves it on `GET /tasks` and answers everything else with 404.
 */
module TaskListHandler {
  import opened Wrappers
  import opened TaskTypes

  /** The seeded `tasks` constant; nothing ever changes it. */
  const SeedTasks := [
    Task(1, "Learn TypeScript", "Learn TypeScript basics", InProgress),
    Task(2, "Build a Todo App", "Build a simple todo app using Deno", Open)]

  /** `ApiResponse<T>`: `data` and `error` are the optional properties. */
  datatype ApiResponse = ApiResponse(success: bool, statusCode: int, data: Option<seq<Task>>, error: Option<string>)

  const NotFoundError := "Not Found"

  /**
   * `handler`: `GET` on exactly `/tasks` succeeds with the seeded list; any
   * other method or path, `/tasks/` included, is 404 "Not Found". Exactly one
   * of `data` and `error` is set.
   */
  function Handler(verb: string, path: string): (r: ApiResponse)
    ensures r.success <==> verb == "GET" && path == "/tasks"
    ensures r.success ==> r.statusCode == 200 && r.data == Some(SeedTasks)
    ensures !r.success ==> r.statusCode == 404 && r.error == Some(NotFoundError)
    ensures r.data.Some? != r.error.Some?
  {
    if verb == "GET" && path == "/tasks" then ApiResponse(true, 200, Some(SeedTasks), None)
    else ApiResponse(false, 404, None, Some(NotFoundError))
  }

  /** The seeded tasks have distinct ids. */
  lemma SeedIdsDistinct()
    ensures forall i, j :: 0 <= i < j < |SeedTasks| ==> SeedTasks[i].id != SeedTasks[j].id
  {
  }

  /** A path with a trailing slash is not the task list. */
  lemma TrailingSlashNotFound(verb: string)
    ensures Handler(verb, "/tasks/").statusCode == 404
  {
    assert "/tasks/" != "/tasks" by {
      assert |"/tasks/"| != |"/tasks"|;
    }
  }
}
