/** The task document of the "transitions" collection (results/results.go:50-75),
    with the derived fields the result merge keeps beside the ledger. */
module Documents {

  datatype FilesRef = FilesRef(postState: string, errLog: string, outLog: string)

  datatype ResultEntry = ResultEntry(
    success: bool,
    created: int,
    clientName: string,
    clientVersion: string,
    postHash: string,
    files: FilesRef)

  datatype Task = Task(
    index: int,
    blocks: int,
    specVersion: string,
    specConfig: string,
    created: int,
    results: map<string, ResultEntry>,
    workersVersioned: map<string, string>,
    workers: map<string, bool>,
    hasFail: bool)

  /** has-fail is set exactly when some result reports a failure. */
  predicate HasFailConsistent(t: Task) {
    t.hasFail <==> exists k :: k in t.results && !t.results[k].success
  }

  /** workers and workers-versioned summarise the ledger: the same clients
      in both, every client with a result is listed, and every recorded
      version is one that client submitted. */
  predicate Summarises(results: map<string, ResultEntry>, workers: map<string, bool>,
                       workersVersioned: map<string, string>)
  {
    && workers.Keys == workersVersioned.Keys
    && (forall n :: n in workers ==> workers[n])
    && (forall k :: k in results ==> results[k].clientName in workers)
    && (forall n :: n in workersVersioned ==>
          exists k :: k in results && results[k].clientName == n
                      && results[k].clientVersion == workersVersioned[n])
  }

  predicate WorkersSound(t: Task) {
    Summarises(t.results, t.workers, t.workersVersioned)
  }

  predicate TaskValid(t: Task) {
    HasFailConsistent(t) && WorkersSound(t)
  }
}
