/** Ingestion of one worker result (results/results.go): the message is
    checked field by field, the task must exist, and the entry is merged
    into the task document under a fresh random key. */
module Results {
  import opened Wrappers
  import opened Formats
  import opened Documents

  /** Which client names a deployment accepts. */
  datatype ClientPolicy =
    | DenyAll                 // the package default (results/results.go:22-24)
    | OnlyNamed(name: string) // MUSKOKA_CLIENT_NAME set (results/results.go:42-46)
    | AnyOf(names: seq<string>) // the list main.go installs (main.go:31-42)

  /** The policy after package initialisation, given MUSKOKA_CLIENT_NAME ("" when unset). */
  function PolicyFromEnv(envName: string): ClientPolicy {
    if envName != "" then OnlyNamed(envName) else DenyAll
  }

  function CheckClient(policy: ClientPolicy, name: string): bool {
    match policy
    case DenyAll => false
    case OnlyNamed(n) => name == n
    case AnyOf(names) => name in names
  }

  /** The decoded pub/sub payload (results/results.go:77-97). */
  datatype ResultMsg = ResultMsg(
    success: bool,
    postHash: string,
    clientName: string,
    clientVersion: string,
    key: string,
    files: FilesRef)

  datatype SubmitError =
    | InvalidPostHash
    | InvalidClientVersion
    | InvalidClientName
    | InvalidTaskKey
    | TaskNotFound

  /** The checks that run before any store access, in the order the handler
      runs them; the first failing one is reported. */
  function Validate(msg: ResultMsg, policy: ClientPolicy): (r: Option<SubmitError>)
    ensures r.None? <==>
              Accepts(RootRegex, msg.postHash) && Accepts(VersionRegex, msg.clientVersion)
              && CheckClient(policy, msg.clientName) && Accepts(TaskKeyRegex, msg.key)
    ensures r == Some(InvalidPostHash) <==> !Accepts(RootRegex, msg.postHash)
    ensures r == Some(InvalidClientVersion) <==>
              Accepts(RootRegex, msg.postHash) && !Accepts(VersionRegex, msg.clientVersion)
    ensures r == Some(InvalidClientName) <==>
              Accepts(RootRegex, msg.postHash) && Accepts(VersionRegex, msg.clientVersion)
              && !CheckClient(policy, msg.clientName)
    ensures r == Some(InvalidTaskKey) <==>
              Accepts(RootRegex, msg.postHash) && Accepts(VersionRegex, msg.clientVersion)
              && CheckClient(policy, msg.clientName) && !Accepts(TaskKeyRegex, msg.key)
    ensures r != Some(TaskNotFound)
  {
    if !Accepts(RootRegex, msg.postHash) then Some(InvalidPostHash)
    else if !Accepts(VersionRegex, msg.clientVersion) then Some(InvalidClientVersion)
    else if !CheckClient(policy, msg.clientName) then Some(InvalidClientName)
    else if !Accepts(TaskKeyRegex, msg.key) then Some(InvalidTaskKey)
    else None
  }

  /** The fields a MergeAll write sets: one new result, the client's entries
      in the two summaries, and has-fail only when the result is a failure. */
  datatype MergeData = MergeData(
    results: map<string, ResultEntry>,
    workersVersioned: map<string, string>,
    workers: map<string, bool>,
    hasFail: Option<bool>)

  /** mergeData for a message, stored under resultKey at time now (results/results.go:155-179). */
  function MergeDataOf(msg: ResultMsg, resultKey: string, now: int): MergeData {
    var entry := ResultEntry(msg.success, now, msg.clientName, msg.clientVersion, msg.postHash,
                             FilesRef(msg.files.postState, msg.files.errLog, msg.files.outLog));
    MergeData(map[resultKey := entry],
              map[msg.clientName := msg.clientVersion],
              map[msg.clientName := true],
              if !msg.success then Some(true) else None)
  }

  /** A field-level merge: named map keys are added or overwritten, sibling keys
      and unnamed fields are left alone. */
  function MergeAll(t: Task, d: MergeData): Task {
    t.(results := t.results + d.results,
       workersVersioned := t.workersVersioned + d.workersVersioned,
       workers := t.workers + d.workers,
       hasFail := if d.hasFail.Some? then d.hasFail.value else t.hasFail)
  }

  /** The document after one accepted result. */
  function Submitted(t: Task, msg: ResultMsg, resultKey: string, now: int): Task {
    MergeAll(t, MergeDataOf(msg, resultKey, now))
  }

  /** The store of task documents, keyed by task key. */
  class TaskStore {
    var tasks: map<string, Task>

    ghost predicate Valid()
      reads this
    {
      forall key :: key in tasks ==> TaskValid(tasks[key])
    }

    constructor (initial: map<string, Task>)
      ensures tasks == initial
      ensures Valid() <==> forall key :: key in initial ==> TaskValid(initial[key])
    {
      tasks := initial;
    }

    /** Results(ctx, m): validate, look the task up, merge. `draw` is the
        random result key uniqueID would produce; it is taken not to collide
        with the task's existing result keys. */
    method Submit(msg: ResultMsg, policy: ClientPolicy, now: int, draw: string) returns (err: Option<SubmitError>)
      requires msg.key in tasks ==> draw !in tasks[msg.key].results
      modifies this
      ensures Validate(msg, policy).Some? ==> err == Validate(msg, policy) && tasks == old(tasks)
      ensures Validate(msg, policy).None? && msg.key !in old(tasks) ==>
                err == Some(TaskNotFound) && tasks == old(tasks)
      ensures Validate(msg, policy).None? && msg.key in old(tasks) ==>
                err.None? && tasks == old(tasks)[msg.key := Submitted(old(tasks)[msg.key], msg, draw, now)]
      ensures old(Valid()) ==> Valid()
    {
      err := Validate(msg, policy);
      if err.Some? {
        return;
      }
      if msg.key !in tasks {
        err := Some(TaskNotFound);
        return;
      }
      var task := tasks[msg.key];
      var data := MergeDataOf(msg, draw, now);
      tasks := tasks[msg.key := MergeAll(task, data)];
      if old(Valid()) {
        SubmitPreservesValidity(task, msg, draw, now);
      }
    }
  }

  // ---- what a merge does to a task

  /** The ledger gains exactly one entry, under the fresh key, copied from the
      message; every earlier entry is kept as it was. */
  lemma SubmitAddsOneResult(t: Task, msg: ResultMsg, resultKey: string, now: int)
    requires resultKey !in t.results
    ensures var r := Submitted(t, msg, resultKey, now).results;
      && r.Keys == t.results.Keys + {resultKey}
      && |r| == |t.results| + 1
      && (forall k :: k in t.results ==> r[k] == t.results[k])
      && r[resultKey].success == msg.success && r[resultKey].created == now
      && r[resultKey].clientName == msg.clientName && r[resultKey].clientVersion == msg.clientVersion
      && r[resultKey].postHash == msg.postHash && r[resultKey].files == msg.files
  {
    var r := Submitted(t, msg, resultKey, now).results;
    assert r.Keys == t.results.Keys + {resultKey};
    assert |r.Keys| == |t.results.Keys| + 1;
  }

  /** The client is recorded with its version; other clients are untouched. */
  lemma SubmitRecordsWorker(t: Task, msg: ResultMsg, resultKey: string, now: int)
    ensures var s := Submitted(t, msg, resultKey, now);
      && s.workers.Keys == t.workers.Keys + {msg.clientName}
      && s.workersVersioned.Keys == t.workersVersioned.Keys + {msg.clientName}
      && s.workers[msg.clientName] && s.workersVersioned[msg.clientName] == msg.clientVersion
      && (forall n :: n in t.workers && n != msg.clientName ==> s.workers[n] == t.workers[n])
      && (forall n :: n in t.workersVersioned && n != msg.clientName ==>
            s.workersVersioned[n] == t.workersVersioned[n])
  {
  }

  /** has-fail becomes true on a failed result and is left alone on a success;
      the header fields never change. */
  lemma SubmitHasFailAndHeader(t: Task, msg: ResultMsg, resultKey: string, now: int)
    ensures var s := Submitted(t, msg, resultKey, now);
      && s.hasFail == (t.hasFail || !msg.success)
      && s.index == t.index && s.blocks == t.blocks && s.created == t.created
      && s.specVersion == t.specVersion && s.specConfig == t.specConfig
  {
  }

  lemma {:induction false} SubmitPreservesHasFail(t: Task, msg: ResultMsg, resultKey: string, now: int)
    requires resultKey !in t.results
    requires HasFailConsistent(t)
    ensures HasFailConsistent(Submitted(t, msg, resultKey, now))
  {
    var s := Submitted(t, msg, resultKey, now);
    if s.hasFail {
      if msg.success {
        var k :| k in t.results && !t.results[k].success;
        assert k in s.results && !s.results[k].success;
      } else {
        assert resultKey in s.results && !s.results[resultKey].success;
      }
    } else {
      forall k | k in s.results ensures s.results[k].success {
        if k != resultKey {
          assert k in t.results;
        }
      }
    }
  }

  /** The merged maps are the old ones with one key set each. */
  lemma SubmittedMaps(t: Task, msg: ResultMsg, resultKey: string, now: int)
    ensures var s := Submitted(t, msg, resultKey, now);
      && s.results == t.results[resultKey := MergeDataOf(msg, resultKey, now).results[resultKey]]
      && s.results[resultKey].clientName == msg.clientName
      && s.results[resultKey].clientVersion == msg.clientVersion
      && s.workers == t.workers[msg.clientName := true]
      && s.workersVersioned == t.workersVersioned[msg.clientName := msg.clientVersion]
  {
  }

  /** Adding one result under a fresh key and recording its client keeps the
      summaries sound. */
  lemma {:induction false} RecordKeepsSummaries(results: map<string, ResultEntry>, workers: map<string, bool>,
                                                workersVersioned: map<string, string>, key: string, e: ResultEntry)
    requires key !in results
    requires Summarises(results, workers, workersVersioned)
    ensures Summarises(results[key := e], workers[e.clientName := true],
                       workersVersioned[e.clientName := e.clientVersion])
  {
    var r, w, v := results[key := e], workers[e.clientName := true],
                   workersVersioned[e.clientName := e.clientVersion];
    forall k | k in r ensures r[k].clientName in w {
      if k != key {
        assert r[k] == results[k];
      }
    }
    forall n | n in v
      ensures exists k :: k in r && r[k].clientName == n && r[k].clientVersion == v[n]
    {
      if n == e.clientName {
        assert key in r && r[key] == e;
      } else {
        var k :| k in results && results[k].clientName == n
                 && results[k].clientVersion == workersVersioned[n];
        assert k in r && r[k] == results[k];
      }
    }
  }

  lemma SubmitPreservesWorkers(t: Task, msg: ResultMsg, resultKey: string, now: int)
    requires resultKey !in t.results
    requires WorkersSound(t)
    ensures WorkersSound(Submitted(t, msg, resultKey, now))
  {
    SubmittedMaps(t, msg, resultKey, now);
    var e := MergeDataOf(msg, resultKey, now).results[resultKey];
    RecordKeepsSummaries(t.results, t.workers, t.workersVersioned, resultKey, e);
  }

  lemma SubmitPreservesValidity(t: Task, msg: ResultMsg, resultKey: string, now: int)
    requires resultKey !in t.results
    requires TaskValid(t)
    ensures TaskValid(Submitted(t, msg, resultKey, now))
  {
    SubmitPreservesHasFail(t, msg, resultKey, now);
    SubmitPreservesWorkers(t, msg, resultKey, now);
  }

  /** A run of accepted results for one task, each under its own draw. */
  function SubmitAll(t: Task, msgs: seq<ResultMsg>, draws: seq<string>, now: int): Task
    requires |msgs| == |draws|
    decreases |msgs|
  {
    if msgs == [] then t
    else SubmitAll(Submitted(t, msgs[0], draws[0], now), msgs[1..], draws[1..], now)
  }

  /** No lost updates: K results under K distinct fresh keys leave K more entries,
      and every earlier entry and every new key is still there. */
  lemma {:induction false} SubmitAllKeepsEveryResult(t: Task, msgs: seq<ResultMsg>, draws: seq<string>, now: int)
    requires |msgs| == |draws|
    requires forall i, j :: 0 <= i < j < |draws| ==> draws[i] != draws[j]
    requires forall i :: 0 <= i < |draws| ==> draws[i] !in t.results
    decreases |msgs|
    ensures var s := SubmitAll(t, msgs, draws, now);
      && |s.results| == |t.results| + |msgs|
      && (forall k :: k in t.results ==> k in s.results && s.results[k] == t.results[k])
      && (forall i :: 0 <= i < |draws| ==> draws[i] in s.results)
  {
    if msgs != [] {
      var t' := Submitted(t, msgs[0], draws[0], now);
      var rest := draws[1..];
      SubmittedMaps(t, msgs[0], draws[0], now);
      assert |t'.results| == |t.results| + 1;
      forall i | 0 <= i < |rest| ensures rest[i] !in t'.results {
        assert rest[i] == draws[i + 1];
      }
      forall i, j | 0 <= i < j < |rest| ensures rest[i] != rest[j] {
        assert rest[i] == draws[i + 1] && rest[j] == draws[j + 1];
      }
      SubmitAllKeepsEveryResult(t', msgs[1..], rest, now);
      var s := SubmitAll(t', msgs[1..], rest, now);
      assert s == SubmitAll(t, msgs, draws, now);
      forall i | 0 <= i < |draws| ensures draws[i] in s.results {
        if i > 0 {
          assert draws[i] == rest[i - 1];
        }
      }
    }
  }

  // ---- the client policy

  /** By default every client is turned away. */
  lemma DefaultDeniesEveryone(name: string)
    ensures !CheckClient(PolicyFromEnv(""), name)
  {
  }

  /** With MUSKOKA_CLIENT_NAME set, exactly that name is accepted. */
  lemma EnvPolicyAcceptsOnlyItsName(envName: string, name: string)
    requires envName != ""
    ensures CheckClient(PolicyFromEnv(envName), name) <==> name == envName
  {
  }

  /** A rejected message leaves every task as it was, whatever the store holds. */
  lemma RejectionBeforeLookup(msg: ResultMsg, policy: ClientPolicy)
    requires !Accepts(TaskKeyRegex, msg.key)
    ensures Validate(msg, policy).Some?
  {
  }
}
