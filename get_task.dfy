/** Lookup of one task by key (get_task/task.go). */
module GetTask {
  import opened Wrappers
  import opened Formats
  import opened Documents
  import opened CacheControl

  /** The fields the handler decodes and returns (get_task/task.go:34-44). */
  datatype TaskView = TaskView(
    blocks: int,
    specVersion: string,
    specConfig: string,
    created: int,
    results: map<string, ResultEntry>)

  function View(t: Task): TaskView {
    TaskView(t.blocks, t.specVersion, t.specConfig, t.created, t.results)
  }

  datatype KeyError = NoKey | InvalidKey

  datatype GetTaskResponse =
    | BadRequest(reason: KeyError)
    | NotFound
    | Found(task: TaskView, cache: Directive)

  /** The `key` query parameter when it has a value, else the `{key}` path
      variable of /task/{key}, else nothing. */
  function SelectKey(queryKey: Option<seq<string>>, pathKey: Option<string>): Option<string> {
    if queryKey.Some? && |queryKey.value| > 0 then Some(queryKey.value[0])
    else if pathKey.Some? then pathKey
    else None
  }

  /** The response for a request at time now against the task documents in store. */
  function GetTask(queryKey: Option<seq<string>>, pathKey: Option<string>,
                   store: map<string, Task>, now: int): (r: GetTaskResponse)
    ensures r == BadRequest(NoKey) <==> (queryKey.None? || |queryKey.value| == 0) && pathKey.None?
    ensures var key := SelectKey(queryKey, pathKey);
      && (r == BadRequest(InvalidKey) <==> key.Some? && !Accepts(TaskKeyRegex, key.value))
      && (r == NotFound <==> key.Some? && Accepts(TaskKeyRegex, key.value) && key.value !in store)
      && (r.Found? ==> key.Some? && key.value in store && r.task == View(store[key.value])
                       && r.cache == TaskDirective(store[key.value].created, now))
  {
    match SelectKey(queryKey, pathKey)
    case None => BadRequest(NoKey)
    case Some(key) =>
      if !Accepts(TaskKeyRegex, key) then BadRequest(InvalidKey)
      else if key !in store then NotFound
      else Found(View(store[key]), TaskDirective(store[key].created, now))
  }

  /** The query parameter wins over the path variable. */
  lemma QueryKeyFirst(q: string, path: Option<string>, store: map<string, Task>, now: int)
    requires Accepts(TaskKeyRegex, q) && q in store
    ensures GetTask(Some([q]), path, store, now).Found?
    ensures GetTask(Some([q]), path, store, now).task == View(store[q])
  {
  }

  /** An invalid key is refused before the store is consulted: the answer is
      the same whatever the store holds. */
  lemma InvalidKeyIgnoresStore(queryKey: Option<seq<string>>, pathKey: Option<string>,
                               s1: map<string, Task>, s2: map<string, Task>, now: int)
    requires SelectKey(queryKey, pathKey).Some? && !Accepts(TaskKeyRegex, SelectKey(queryKey, pathKey).value)
    ensures GetTask(queryKey, pathKey, s1, now) == GetTask(queryKey, pathKey, s2, now) == BadRequest(InvalidKey)
  {
  }

  /** Keys starting with `-` or `=` pass this endpoint's pattern and are looked
      up; a `_` first, an empty `?key=`, or a key over 129 characters is
      refused; a request with neither a query key nor a path key has no key. */
  lemma KeyPatternExamples(store: map<string, Task>, now: int)
    requires "-a" !in store && "=b" !in store
    ensures GetTask(Some(["-a"]), None, store, now) == NotFound
    ensures GetTask(None, Some("=b"), store, now) == NotFound
    ensures GetTask(Some(["_a"]), None, store, now) == BadRequest(InvalidKey)
    ensures GetTask(Some([""]), None, store, now) == BadRequest(InvalidKey)
    ensures forall k :: |k| > 129 ==> GetTask(Some([k]), None, store, now) == BadRequest(InvalidKey)
    ensures GetTask(None, None, store, now) == BadRequest(NoKey)
  {
    TaskKeyRegexShape("-a");
    TaskKeyRegexShape("=b");
    TaskKeyRegexShape("_a");
    TaskKeyRegexShape("");
    forall k: string | |k| > 129
      ensures GetTask(Some([k]), None, store, now) == BadRequest(InvalidKey)
    {
      TaskKeyRegexShape(k);
    }
  }
}
