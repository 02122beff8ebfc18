# muskoka-server core, modelled in Dafny

muskoka-server coordinates conformance testing of Ethereum 2.0 state
transitions. A producer uploads a task, which is a pre-state plus blocks.
Worker clients (`zrnt`, `lighthouse`, …) run the transition and publish
results over pub/sub. Viewers look tasks up by key or list them page by page.
This project models the deterministic logic under the HTTP and Google Cloud
calls of the five handler files. Stores become maps and sequences. Clocks,
random keys and cloud outcomes become inputs.

| file | module | what it models |
|---|---|---|
| `formats.dfy` | `Formats` | The identifier patterns, written as data (`Pattern`), and a matcher with Go `regexp.Match` semantics for anchors, bracket classes and `{m,n}` repetition. Every pattern of the server is modelled, and each one's accepted language is proved against a direct definition. |
| `decimal.dfy` | `Decimal` | `strconv.ParseUint(s, 10, bits)` and the `%d` numeral, with the round trip. |
| `cache.dfy` | `CacheControl` | The Cache-Control tiers. `TaskDirective` models one task's timestamp; `RangeDirective` models a page's first and last timestamps. |
| `documents.dfy` | `Documents` | The `transitions` task document and its invariants. `HasFailConsistent` says has-fail matches the ledger. `Summarises` says workers and workers-versioned are a sound summary of the ledger. |
| `results.dfy` | `Results` | Result ingestion: the client policy, the ordered validation, the task-existence check, `mergeData`, and the field-level `MergeAll`. `CheckClient`, `Validate`, `MergeDataOf` and `MergeAll` are module-level functions. The `Submit` method of the `TaskStore` class applies them and updates its `tasks` map in place. |
| `listing.dfy` | `Listing` | The listing endpoint. Parameters are decoded into a `Query`, both as a function and as the imperative builder loop. The query is evaluated as filter, order by index descending, exclusive cursors, then limit. The page is collected in a loop. The counter gives the total, and the page gets a cache tier. |
| `get_task.dfy` | `GetTask` | Key selection, key validation, the not-found outcome and the single-task cache tier. |
| `upload.dfy` | `Upload` | The spec-version header checks, the file-count checks and the object paths. Also the copy loop with its failure flag and `break`, and the publish decision. |
| `wrappers.dfy` | `Wrappers` | `Option` and `Result`. |

Time values are integer nanoseconds. `now` is always an input. Go's
`t.Add(d).Before(now)` is `t + d < now`, and `After` is `>`.

Points where the code behaves in ways a reader might not expect, all modelled as written:

- The listing accepts `limit=0`. It only refuses non-numbers and values
  over 20, and a zero limit gives an empty page.
- `before` excludes its boundary. With newest-first order and a limit,
  `before=i` returns the *newest* matching tasks above `i`, not the ones
  next to `i` (`Listing.BeforeTakesNewest`). This describes the query the
  builder composes. The handler passes the cursor to `EndBefore` as a
  `uint64` (listing/listing.go:151), a type the Firestore Go client
  documents as unsupported in query values. If the client refuses it, every
  `before` request with a non-zero counter takes the server-error path
  (listing/listing.go:197). The model does not decide this.
- Nothing in these files allocates indices. The listing only reads the
  `next-index` counter, and the upload registers a datastore entity without
  an index. No allocator is modelled.
- The listing runs no query for an adjacent page, and its response carries
  no "has previous/next page" flag.
- The upload handler's quirks are reproduced as written:
  - its version pattern is unanchored;
  - more than 16 blocks is reported, but the handler carries on;
  - a failed pre-state copy sets the failure flag to `false`, so the blocks
    are still copied and the task is still published.

## Model

| member | source | states |
|---|---|---|
| `Formats.RootRegexShape` | common/format.go:6 | A root is accepted iff it has 66 characters, starts with `0x`, and the rest are lower-case hex. Upper-case hex is refused. |
| `Formats.KeyRegexShape` | common/format.go:9 | A key is accepted iff it has 1 to 129 characters, an alphanumeric first character, and the rest in `[-_0-9a-zA-Z]`. |
| `Formats.VersionRegexShape` | common/format.go:12 | A version is accepted iff it has 1 to 129 characters, an alphanumeric first character, and the rest in `[-_.0-9a-zA-Z]`. |
| `Formats.TaskKeyRegexShape` | results/results.go:108 | The task-key variant also allows `-` or `=` first, and `=` anywhere, still with 1 to 129 characters. |
| `Formats.UploadVersionRegexShape` | upload/upload.go:92 | The unanchored upload pattern accepts iff some character is in `[a-zA-Z0-9.-]`. |
| `Formats.KeyIsVersion` | common/format.go:9-12 | Every accepted key is an accepted version. |
| `Formats.KeyIsTaskKey` | results/results.go:107-108 | Every key of the common pattern passes the task-key pattern. |
| `Formats.TaskKeyRegexIsLooser` | get_task/task.go:61-62 | `-` and `=x` pass the task-key pattern but not the common key pattern. |
| `Formats.VersionDots` | common/format.go:11-12 | A leading `.` is refused (`.1`); a later one is allowed (`v1.0`). |
| `Formats.EmptyRejected` | common/format.go:6-12 | The empty string is refused by every pattern. |
| `Decimal.ParseUint` | listing/listing.go:92 | An accepted string is all digits and its value is the number it denotes, below the bit-width bound. The empty string, any non-digit, and a value at or above the bound are refused; every other digit string is accepted with its value. |
| `Decimal.ParseLeadingZeros` | listing/listing.go:92 | A leading zero changes nothing: `0s` is accepted iff `s` is, with the same value. |
| `Decimal.LeadingZerosExample` | listing/listing.go:139 | `"007"` parses as 7. |
| `Decimal.ParseShow` | listing/listing.go:139 | Parsing the decimal numeral of any n below the bound gives n back. |
| `Decimal.ShowInjective` | upload/upload.go:163 | Distinct block numbers print as distinct numerals. |
| `CacheControl.TaskDirective` | get_task/task.go:105-113 | Only max-age values of 86400, 3600 or 30 seconds are ever chosen. |
| `CacheControl.TaskDirectiveTiers` | get_task/task.go:105-113 | Exactly one tier per (created, now): over a week old gives a day, over 3 hours an hour, under 30 s no-cache, otherwise 30 s. |
| `CacheControl.TaskDirectiveMonotone` | get_task/task.go:99-113 | An older task never gets a shorter max-age than a newer one. |
| `CacheControl.RangeDirective` | listing/listing.go:211-222 | The page tier is one of the same four directives. |
| `CacheControl.RangeDirectiveTiers` | listing/listing.go:211-222 | One iff per tier, in the ends' ages: a day iff the younger end is over a week old, an hour iff it is over 3 hours but not over a week, no-cache iff the older end is under 30 s, and otherwise 30 s. |
| `CacheControl.RangeOfOneTime` | listing/listing.go:211-222 | A page whose ends share one timestamp gets that task's single tier. |
| `CacheControl.RangeAgreesWithEnds` | listing/listing.go:211-222 | When both ends would get the same tier on their own, the page gets it. |
| `CacheControl.RangeNeedsBothEnds` | listing/listing.go:211-222 | A day only when both ends are over a week old. The page lifetime lies between the two ends' lifetimes. |
| `CacheControl.MixedAgesExample` | listing/listing.go:211-222 | Ends 10 days and 10 seconds old give 30 s, never a day. |
| `Results.DefaultDeniesEveryone` | results/results.go:21-24 | With MUSKOKA_CLIENT_NAME unset, every client name is refused. |
| `Results.EnvPolicyAcceptsOnlyItsName` | results/results.go:41-47 | With MUSKOKA_CLIENT_NAME set, exactly that name is accepted. |
| `Results.Validate` | results/results.go:122-134 | The checks run in the order post hash, client version, client name, task key. Each error is reported iff its own check fails and every earlier check passes, so the reported error is the first failing check. None is reported iff all pass, and TaskNotFound never comes from these checks. |
| `Results.RejectionBeforeLookup` | results/results.go:132-140 | A task key that fails its pattern is refused before the lookup. |
| `Results.TaskStore.Submit` | results/results.go:116-185 | A validation error, or a task key that is not in the store, leaves every task unchanged. Otherwise only that task changes, by the merge. The store invariant is kept. |
| `Results.SubmitAddsOneResult` | results/results.go:152-169 | Exactly one entry is added, under the fresh key. Earlier entries are unchanged. The entry copies success, client name and version, post hash and files, with the merge time. |
| `Results.SubmitRecordsWorker` | results/results.go:170-176 | `workers[name]` becomes true and `workers-versioned[name]` becomes the version. Other clients are unchanged. |
| `Results.SubmitHasFailAndHeader` | results/results.go:177-180 | has-fail becomes `old OR !success`. index, blocks, spec-version, spec-config and created are unchanged. |
| `Results.SubmittedMaps` | results/results.go:155-180 | MergeAll sets one key in each of results, workers and workers-versioned. |
| `Results.SubmitPreservesHasFail` | results/results.go:155-180 | If has-fail matched "some result failed" before the merge, it still does after. |
| `Results.RecordKeepsSummaries` | results/results.go:155-176 | Adding a fresh result and recording its client keeps workers and workers-versioned a sound summary. |
| `Results.SubmitPreservesWorkers` | results/results.go:155-180 | The merge keeps the worker summaries sound. |
| `Results.SubmitPreservesValidity` | results/results.go:155-180 | Both task invariants survive a merge. |
| `Results.SubmitAllKeepsEveryResult` | results/results.go:152-185 | K accepted results under distinct fresh keys add exactly K entries and lose none. |
| `Listing.DecodeLimit` | listing/listing.go:91-103 | The limit defaults to 10 with no `limit` value. An explicit accepted limit is the parsed value, at most 20. InvalidLimit iff the value is not a uint32 numeral. LimitTooHigh iff it parses to over 20. No other error is possible, so every numeral up to 20 is accepted. |
| `Listing.ClientFilterOf` | listing/listing.go:118-134 | A client parameter is accepted iff its name is a key and its non-`all` version is a version. |
| `Listing.Int64Of` | listing/listing.go:143 | `int(afterIndex)` is the uint64 reinterpreted in 64-bit two's complement. |
| `Listing.DecodeCursor` | listing/listing.go:137-152 | A missing cursor gives no bound. A present one is refused, with that cursor's error, iff it is not a uint64 numeral; otherwise its parsed value, below 2^64, is the bound. |
| `Listing.ClientFiltersErrorSticks` | listing/listing.go:117-136 | Once a client parameter is refused, later ones do not change the outcome. |
| `Listing.BuildQuery` | listing/listing.go:88-154 | The step-by-step builder with its parameter loop yields exactly the decoded query or error. |
| `Listing.ClientFiltersMeaning` | listing/listing.go:117-136 | Bad input iff some client parameter is invalid. Otherwise a task passes iff each `client-<name>` holds: `all` or no value needs `workers[name]`, a version `v` needs `workers-versioned[name] == v`. |
| `Listing.DecodeQueryLimits` | listing/listing.go:91-110 | No limit gives 10, and an explicit limit gives its parsed value. A non-numeral or out-of-uint32 limit is InvalidLimit, and one over 20 is LimitTooHigh. The has-fail filter is on iff the first value is exactly `true`. |
| `Listing.DecodeQueryCursors` | listing/listing.go:137-152 | A non-numeral `after` is InvalidAfter; a non-numeral `before`, once `after` is fine, is InvalidBefore. `after` and `before` carry the parsed index, with `after` wrapped as Go's `int()`. |
| `Listing.FilterMembers` | listing/listing.go:108-152 | A document passes the filter iff it is stored and meets every where-clause and cursor. Unique indices stay unique. |
| `Listing.SortPermutes` | listing/listing.go:106 | Ordering by index is a permutation of the filtered documents. |
| `Listing.SortDescending` | listing/listing.go:105-106 | With unique indices the order is strictly descending. |
| `Listing.TakeNewest` | listing/listing.go:100 | The limit keeps a prefix: at most `limit` items, each newer than anything it drops. |
| `Listing.EvaluateSpec` | listing/listing.go:100-152 | A page has at most `limit` items, strictly descending, each stored and matching. A matching task left off means the page is full and that task is older than the whole page. |
| `Listing.BeforeTakesNewest` | listing/listing.go:145-152 | With `before=i`, matching tasks left off lie between `i` and the oldest task on the page. |
| `Listing.CollectPage` | listing/listing.go:176-193 | The iterator loop appends exactly the projection of each returned document, in order. |
| `Listing.PageDirective` | listing/listing.go:203-225 | An empty page, or one whose first index + 20 is at least the total, gets no-cache. Any other page gets the two-ended tier of its first and last tasks' creation times. |
| `Listing.Listing` | listing/listing.go:88-236 | The handler returns bad input for a bad parameter and a server error for a failed counter read. Otherwise it returns the page, the total and the cache tier. |
| `Listing.ListingPage` | listing/listing.go:156-193 | The total is the counter, or 0 when it is missing. A zero total gives an empty page. Otherwise at most `limit` ≤ 20 tasks, strictly descending by index, each the projection of a stored matching task. |
| `GetTask.GetTask` | get_task/task.go:64-113 | No key gives bad input. A key failing the task-key pattern gives bad input. A key not in the store gives 404. Otherwise the task's view with its single-task cache tier. |
| `GetTask.QueryKeyFirst` | get_task/task.go:67-77 | The `key` query parameter is used in preference to the path variable. |
| `GetTask.InvalidKeyIgnoresStore` | get_task/task.go:78-84 | An invalid key gets the same bad-input answer whatever the store holds. |
| `GetTask.KeyPatternExamples` | get_task/task.go:62-88 | `-a` and `=b` are looked up (404 when absent); `_a`, an empty `?key=` and any key over 129 characters are refused as invalid; no query key and no path variable is the no-key error. |
| `Upload.Utf8Len` | upload/upload.go:100 | Go's `len` counts UTF-8 bytes, never fewer than the characters. |
| `Upload.SpecVersionAccepted` | upload/upload.go:92-107 | The header passes iff it is non-empty, at most 10 bytes, and holds some character of `[a-zA-Z0-9.-]`. |
| `Upload.UnanchoredVersionExample` | upload/upload.go:92-107 | `?v1` passes here, though the anchored version pattern refuses it. `??` is invalid. An 11-byte version is too long. |
| `Upload.CheckForm` | upload/upload.go:118-130 | A form is accepted iff it has blocks and exactly one pre-state file, and then its block count is returned. No blocks gives NoBlocks; blocks without a pre-state give NoPreState; a pre-state count other than one gives NotOnePreState. |
| `Upload.TooManyBlocksStillAccepted` | upload/upload.go:118-130 | More than 16 blocks is reported but the form is accepted. |
| `Upload.PathsDistinct` | upload/upload.go:155-163 | Block paths `<ver>/<key>/block_<i>.ssz` are distinct for distinct i, and none is the pre path `<ver>/<key>/pre.ssz`. |
| `Upload.StoreInputs` | upload/upload.go:151-169 | The pre-state is copied first, then blocks in order. The copies stop at the first failing block. The flag is set iff some block fails; a failed pre-state copy does not set it. |
| `Upload.PreStateFailureIgnored` | upload/upload.go:151-159 | When only the pre-state copy fails, no block path is among the failures, so the blocks are copied and the task is published. |
| `Upload.Upload` | upload/upload.go:94-189 | Each check's error, in order, with the >16 report kept. Once registered, the pre-state path and then the block paths are attempted in order. On publication every block was attempted; otherwise the last attempted path failed. No path before the last failed. A message carrying the block count, spec version and key is published iff no block copy failed. |

## Left out

- Firestore, Datastore, Pub/Sub and Cloud Storage clients, `init`, context deadlines, and transient store or decode errors. The exception is the listing's counter read, modelled as `CounterFailed`. Each store is a map or a sequence, and each cloud call is an input. Listing iteration and document decoding errors are not modelled.
- Transactions and concurrent merges. Each operation is one atomic step. The counter and the page are read from one snapshot.
- JSON and multipart decoding, HTTP header and body writing, logging, CORS and routing in main.go. main.go's client list is the `AnyOf` policy.
- `Results.TaskStore.Submit`: `uniqueID`'s 32 random bytes, base64url-encoded, are the `draw` parameter. A collision with an existing result key is excluded by its requires, so the overwrite MergeAll would do on a collision is not modelled.
- `Listing.EvaluateSpec`, `Listing.ListingPage`, `Listing.BeforeTakesNewest`: they assume stored indices are distinct. Firestore's tie-break on equal indices (document name) is not modelled.
- The order in which Go's map iteration visits URL parameters is the order of the `Param` sequence. It only decides which of several bad client parameters is reported.
- The `before` cursor is passed to the query as an unsigned 64-bit value. How the store client converts that type is not modelled. The model compares it as an integer, which is the query the builder intends. A client that refuses `uint64` values would make such requests a server error instead; that outcome is not modelled.
- The `Param` sequence may repeat a name, which `url.Values` keys cannot. `Lookup` takes the first occurrence, and no property relies on names being distinct.
- The handlers call `time.Now()` afresh for each comparison (listing/listing.go:211-218, get_task/task.go:105-109). The model reads the clock once, as `now`. A clock that ticks between two comparisons could pick a different tier; that is not modelled.
- Strings are sequences of Unicode characters. The patterns count characters as Go's regexp counts runes. Invalid UTF-8 bytes are not modelled.
- The datastore key encoding and the response's `key: …` line. The upload's registered key is an input.
