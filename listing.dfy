/** The listing endpoint (listing/listing.go): URL parameters are decoded into
    a query, the query is evaluated over the task collection (filter, newest
    index first, exclusive cursors, limit), the next-index counter gives the
    total, and the page ages pick a Cache-Control tier. */
module Listing {
  import opened Wrappers
  import opened Formats
  import opened Decimal
  import opened Documents
  import opened CacheControl

  const DefaultResultsCount: nat := 10
  const MaxResultsCount: nat := 20
  const ClientPrefix := "client-"

  /** One URL parameter with all its values. The sequence order is the order
      in which Go's map iteration visits url.Values. */
  datatype Param = Param(name: string, values: seq<string>)

  /** params[name], when present. */
  function Lookup(params: seq<Param>, name: string): Option<seq<string>> {
    if params == [] then None
    else if params[0].name == name then Some(params[0].values)
    else Lookup(params[1..], name)
  }

  /** The first value, when `p, ok := params[name]; ok && len(p) > 0`. */
  function FirstValue(params: seq<Param>, name: string): Option<string> {
    match Lookup(params, name)
    case Some(vs) => if |vs| > 0 then Some(vs[0]) else None
    case None => None
  }

  datatype ClientFilter =
    | AnyVersion(client: string)                   // workers.<client> == true
    | ExactVersion(client: string, version: string) // workers-versioned.<client> == version

  /** What the query builder composes. Cursors are index values: `after`
      keeps smaller indices, `before` larger ones. */
  datatype Query = Query(
    limit: nat,
    hasFail: bool,
    specVersion: Option<string>,
    specConfig: Option<string>,
    clients: seq<ClientFilter>,
    after: Option<int>,
    before: Option<int>)

  datatype BadInput =
    | InvalidLimit
    | LimitTooHigh
    | InvalidClientName
    | InvalidClientVersion
    | InvalidAfter
    | InvalidBefore

  // ---- decoding the parameters

  function DecodeLimit(params: seq<Param>): (r: Result<nat, BadInput>)
    ensures r.Ok? ==> r.value <= MaxResultsCount
    ensures r.Err? ==> r.error == InvalidLimit || r.error == LimitTooHigh
    ensures FirstValue(params, "limit").None? ==> r == Ok(DefaultResultsCount)
    ensures FirstValue(params, "limit").Some? && r.Ok? ==>
              ParseUint(FirstValue(params, "limit").value, Uint32Bound) == Some(r.value)
    ensures r == Err(InvalidLimit) <==>
              FirstValue(params, "limit").Some? && ParseUint(FirstValue(params, "limit").value, Uint32Bound).None?
    ensures r == Err(LimitTooHigh) <==>
              FirstValue(params, "limit").Some? && ParseUint(FirstValue(params, "limit").value, Uint32Bound).Some?
              && ParseUint(FirstValue(params, "limit").value, Uint32Bound).value > MaxResultsCount
  {
    match FirstValue(params, "limit")
    case None => Ok(DefaultResultsCount)
    case Some(v) =>
      match ParseUint(v, Uint32Bound)
      case None => Err(InvalidLimit)
      case Some(l) => if l > MaxResultsCount then Err(LimitTooHigh) else Ok(l)
  }

  predicate IsClientParam(p: Param) {
    |p.name| >= |ClientPrefix| && p.name[..|ClientPrefix|] == ClientPrefix
  }

  function ClientName(p: Param): string
    requires IsClientParam(p)
  {
    p.name[|ClientPrefix|..]
  }

  /** Asks for a specific version (a first value other than "all"). */
  predicate WantsVersion(p: Param) {
    |p.values| > 0 && p.values[0] != "all"
  }

  predicate ClientParamValid(p: Param)
    requires IsClientParam(p)
  {
    Accepts(KeyRegex, ClientName(p)) && (WantsVersion(p) ==> Accepts(VersionRegex, p.values[0]))
  }

  function ClientFilterOf(p: Param): (r: Result<ClientFilter, BadInput>)
    requires IsClientParam(p)
    ensures r.Ok? <==> ClientParamValid(p)
  {
    var name := ClientName(p);
    if !Accepts(KeyRegex, name) then Err(InvalidClientName)
    else if WantsVersion(p) then
      if !Accepts(VersionRegex, p.values[0]) then Err(InvalidClientVersion)
      else Ok(ExactVersion(name, p.values[0]))
    else Ok(AnyVersion(name))
  }

  /** The client filters of the parameters in iteration order; the first
      invalid client parameter decides the error. */
  function ClientFilters(params: seq<Param>): Result<seq<ClientFilter>, BadInput>
    decreases |params|
  {
    if params == [] then Ok([])
    else
      var last := params[|params| - 1];
      match ClientFilters(params[..|params| - 1])
      case Err(e) => Err(e)
      case Ok(fs) =>
        if !IsClientParam(last) then Ok(fs)
        else match ClientFilterOf(last)
          case Err(e) => Err(e)
          case Ok(f) => Ok(fs + [f])
  }

  /** Go's int(u) for a uint64 on a 64-bit platform: two's complement wrap. */
  function Int64Of(u: nat): (r: int)
    requires u < Uint64Bound
    ensures -0x8000_0000_0000_0000 <= r < 0x8000_0000_0000_0000
    ensures r == u || r == u - Uint64Bound
  {
    if u < 0x8000_0000_0000_0000 then u else u - Uint64Bound
  }

  function DecodeCursor(params: seq<Param>, name: string, bad: BadInput): (r: Result<Option<nat>, BadInput>)
    ensures r.Ok? && r.value.Some? ==> r.value.value < Uint64Bound
    ensures r.Err? ==> r.error == bad
    ensures FirstValue(params, name).None? ==> r == Ok(None)
    ensures FirstValue(params, name).Some? ==>
              (r.Err? <==> ParseUint(FirstValue(params, name).value, Uint64Bound).None?)
    ensures r.Ok? && r.value.Some? ==>
              FirstValue(params, name).Some?
              && ParseUint(FirstValue(params, name).value, Uint64Bound) == Some(r.value.value)
  {
    match FirstValue(params, name)
    case None => Ok(None)
    case Some(v) =>
      match ParseUint(v, Uint64Bound)
      case None => Err(bad)
      case Some(n) => Ok(Some(n))
  }

  /** The query the handler builds, or the bad-input report that stops it. */
  function DecodeQuery(params: seq<Param>): Result<Query, BadInput> {
    match DecodeLimit(params)
    case Err(e) => Err(e)
    case Ok(limit) =>
      match ClientFilters(params)
      case Err(e) => Err(e)
      case Ok(clients) =>
        match DecodeCursor(params, "after", InvalidAfter)
        case Err(e) => Err(e)
        case Ok(after) =>
          match DecodeCursor(params, "before", InvalidBefore)
          case Err(e) => Err(e)
          case Ok(before) =>
            Ok(Query(limit,
                     FirstValue(params, "has-fail") == Some("true"),
                     FirstValue(params, "spec-version"),
                     FirstValue(params, "spec-config"),
                     clients,
                     if after.Some? then Some(Int64Of(after.value)) else None,
                     if before.Some? then Some(before.value as int) else None))
  }

  /** An error in a prefix of the parameters is the error of the whole. */
  lemma {:induction false} ClientFiltersErrorSticks(params: seq<Param>, i: nat)
    requires i <= |params|
    requires ClientFilters(params[..i]).Err?
    ensures ClientFilters(params) == ClientFilters(params[..i])
    decreases |params| - i
  {
    if i < |params| {
      assert params[..i + 1][..i] == params[..i];
      ClientFiltersErrorSticks(params, i + 1);
    } else {
      assert params[..i] == params;
    }
  }

  /** Lines 90-154: the builder `q` is reassigned step by step, and the loop
      over the parameters adds one filter per client parameter. */
  method BuildQuery(params: seq<Param>) returns (r: Result<Query, BadInput>)
    ensures r == DecodeQuery(params)
  {
    var q := Query(DefaultResultsCount, false, None, None, [], None, None);
    var limitParam := FirstValue(params, "limit");
    if limitParam.Some? {
      var limit := ParseUint(limitParam.value, Uint32Bound);
      if limit.None? {
        return Err(InvalidLimit);
      }
      if limit.value > MaxResultsCount {
        return Err(LimitTooHigh);
      }
      q := q.(limit := limit.value);
    }
    if FirstValue(params, "has-fail") == Some("true") {
      q := q.(hasFail := true);
    }
    var specVersion := FirstValue(params, "spec-version");
    if specVersion.Some? {
      q := q.(specVersion := specVersion);
    }
    var specConfig := FirstValue(params, "spec-config");
    if specConfig.Some? {
      q := q.(specConfig := specConfig);
    }
    ghost var q0 := q;
    var i := 0;
    while i < |params|
      invariant 0 <= i <= |params|
      invariant ClientFilters(params[..i]) == Ok(q.clients)
      invariant q == q0.(clients := q.clients)
    {
      var p := params[i];
      assert params[..i + 1][..i] == params[..i] && params[..i + 1][i] == p;
      if IsClientParam(p) {
        var name := p.name[|ClientPrefix|..];
        if !Accepts(KeyRegex, name) {
          ClientFiltersErrorSticks(params, i + 1);
          return Err(InvalidClientName);
        }
        if |p.values| > 0 && p.values[0] != "all" {
          if !Accepts(VersionRegex, p.values[0]) {
            ClientFiltersErrorSticks(params, i + 1);
            return Err(InvalidClientVersion);
          }
          q := q.(clients := q.clients + [ExactVersion(name, p.values[0])]);
        } else {
          q := q.(clients := q.clients + [AnyVersion(name)]);
        }
      }
      i := i + 1;
    }
    assert params[..|params|] == params;
    var after := FirstValue(params, "after");
    if after.Some? {
      var afterIndex := ParseUint(after.value, Uint64Bound);
      if afterIndex.None? {
        return Err(InvalidAfter);
      }
      q := q.(after := Some(Int64Of(afterIndex.value)));
    }
    var before := FirstValue(params, "before");
    if before.Some? {
      var beforeIndex := ParseUint(before.value, Uint64Bound);
      if beforeIndex.None? {
        return Err(InvalidBefore);
      }
      q := q.(before := Some(beforeIndex.value as int));
    }
    r := Ok(q);
  }

  // ---- what the decoded query asks for, in terms of the parameters

  /** A client parameter's condition on a task, read off the parameter. */
  predicate ParamHolds(p: Param, t: Task)
    requires IsClientParam(p)
  {
    if WantsVersion(p) then ClientName(p) in t.workersVersioned && t.workersVersioned[ClientName(p)] == p.values[0]
    else ClientName(p) in t.workers && t.workers[ClientName(p)]
  }

  predicate FilterHolds(f: ClientFilter, t: Task) {
    match f
    case AnyVersion(c) => c in t.workers && t.workers[c]
    case ExactVersion(c, v) => c in t.workersVersioned && t.workersVersioned[c] == v
  }

  predicate AllFiltersHold(fs: seq<ClientFilter>, t: Task) {
    forall i :: 0 <= i < |fs| ==> FilterHolds(fs[i], t)
  }

  /** The client filters are rejected exactly when some client parameter is
      invalid, and otherwise ask for exactly what every client parameter says. */
  lemma {:induction false} ClientFiltersMeaning(params: seq<Param>, t: Task)
    decreases |params|
    ensures ClientFilters(params).Err? <==>
              exists i :: 0 <= i < |params| && IsClientParam(params[i]) && !ClientParamValid(params[i])
    ensures ClientFilters(params).Ok? ==>
              (AllFiltersHold(ClientFilters(params).value, t) <==>
                 forall i :: 0 <= i < |params| && IsClientParam(params[i]) ==> ParamHolds(params[i], t))
  {
    if params != [] {
      var n := |params| - 1;
      var init, last := params[..n], params[n];
      ClientFiltersMeaning(init, t);
      assert forall i :: 0 <= i < n ==> params[i] == init[i];
      if ClientFilters(init).Ok? && IsClientParam(last) && ClientFilterOf(last).Ok? {
        var fs := ClientFilters(init).value;
        var all := fs + [ClientFilterOf(last).value];
        assert FilterHolds(all[|fs|], t) <==> ParamHolds(last, t);
        assert AllFiltersHold(all, t) <==> AllFiltersHold(fs, t) && FilterHolds(all[|fs|], t) by {
          assert forall i :: 0 <= i < |fs| ==> all[i] == fs[i];
        }
      }
    }
  }

  /** Without a limit parameter the page size is 10; no accepted limit exceeds 20;
      the has-fail filter is on only for a first value of exactly "true". */
  lemma DecodeQueryLimits(params: seq<Param>)
    ensures DecodeQuery(params).Ok? ==> DecodeQuery(params).value.limit <= MaxResultsCount
    ensures FirstValue(params, "limit").None? && DecodeQuery(params).Ok? ==>
              DecodeQuery(params).value.limit == DefaultResultsCount
    ensures (exists v :: FirstValue(params, "limit") == Some(v) && ParseUint(v, Uint32Bound).None?) ==>
              DecodeQuery(params) == Err(InvalidLimit)
    ensures (exists v :: FirstValue(params, "limit") == Some(v) && ParseUint(v, Uint32Bound).Some?
                         && ParseUint(v, Uint32Bound).value > MaxResultsCount) ==>
              DecodeQuery(params) == Err(LimitTooHigh)
    ensures DecodeQuery(params).Ok? && FirstValue(params, "limit").Some? ==>
              ParseUint(FirstValue(params, "limit").value, Uint32Bound) == Some(DecodeQuery(params).value.limit)
    ensures DecodeQuery(params).Ok? ==>
              (DecodeQuery(params).value.hasFail <==> FirstValue(params, "has-fail") == Some("true"))
  {
  }

  /** A cursor that is not a decimal number is bad input; a valid `after`
      wraps like Go's int conversion, `before` keeps its value. */
  lemma DecodeQueryCursors(params: seq<Param>)
    ensures DecodeLimit(params).Ok? && ClientFilters(params).Ok? &&
            FirstValue(params, "after").Some? && ParseUint(FirstValue(params, "after").value, Uint64Bound).None? ==>
              DecodeQuery(params) == Err(InvalidAfter)
    ensures DecodeLimit(params).Ok? && ClientFilters(params).Ok? && DecodeCursor(params, "after", InvalidAfter).Ok? &&
            FirstValue(params, "before").Some? && ParseUint(FirstValue(params, "before").value, Uint64Bound).None? ==>
              DecodeQuery(params) == Err(InvalidBefore)
    ensures DecodeQuery(params).Ok? && FirstValue(params, "after").Some? ==>
              DecodeQuery(params).value.after ==
                Some(Int64Of(ParseUint(FirstValue(params, "after").value, Uint64Bound).value))
    ensures DecodeQuery(params).Ok? && FirstValue(params, "before").Some? ==>
              DecodeQuery(params).value.before == Some(ParseUint(FirstValue(params, "before").value, Uint64Bound).value)
    ensures DecodeQuery(params).Ok? && FirstValue(params, "after").None? ==> DecodeQuery(params).value.after.None?
    ensures DecodeQuery(params).Ok? && FirstValue(params, "before").None? ==> DecodeQuery(params).value.before.None?
  {
  }

  // ---- evaluating a query over the collection

  /** A task document and its key (the document ID). */
  datatype Doc = Doc(key: string, task: Task)

  /** The where-clauses and the cursors. */
  predicate Selected(q: Query, t: Task) {
    && (q.hasFail ==> t.hasFail)
    && (q.specVersion.Some? ==> t.specVersion == q.specVersion.value)
    && (q.specConfig.Some? ==> t.specConfig == q.specConfig.value)
    && AllFiltersHold(q.clients, t)
    && (q.after.Some? ==> t.index < q.after.value)
    && (q.before.Some? ==> t.index > q.before.value)
  }

  function Filter(q: Query, docs: seq<Doc>): (r: seq<Doc>)
    ensures |r| <= |docs|
  {
    if docs == [] then []
    else (if Selected(q, docs[0].task) then [docs[0]] else []) + Filter(q, docs[1..])
  }

  /** Inserts d before the first element with a smaller or equal index. */
  function Insert(d: Doc, s: seq<Doc>): seq<Doc> {
    if s == [] || d.task.index >= s[0].task.index then [d] + s
    else [s[0]] + Insert(d, s[1..])
  }

  /** Ordered by index, largest first. */
  function SortDesc(s: seq<Doc>): seq<Doc> {
    if s == [] then [] else Insert(s[0], SortDesc(s[1..]))
  }

  function Min(a: nat, b: nat): nat { if a <= b then a else b }

  /** OrderBy("index", Desc), the where-clauses and cursors, then Limit. */
  function Evaluate(q: Query, docs: seq<Doc>): seq<Doc> {
    var sorted := SortDesc(Filter(q, docs));
    sorted[..Min(q.limit, |sorted|)]
  }

  predicate UniqueIndex(s: seq<Doc>) {
    forall i, j :: 0 <= i < j < |s| ==> s[i].task.index != s[j].task.index
  }

  predicate StrictlyDescending(s: seq<Doc>) {
    forall i, j :: 0 <= i < j < |s| ==> s[i].task.index > s[j].task.index
  }

  lemma {:induction false} FilterMembers(q: Query, docs: seq<Doc>)
    ensures forall d :: d in Filter(q, docs) <==> d in docs && Selected(q, d.task)
    ensures UniqueIndex(docs) ==> UniqueIndex(Filter(q, docs))
  {
    if docs != [] {
      FilterMembers(q, docs[1..]);
      var rest := Filter(q, docs[1..]);
      assert forall d :: d in docs <==> d == docs[0] || d in docs[1..];
      if UniqueIndex(docs) {
        assert UniqueIndex(docs[1..]);
        forall d | d in rest ensures d.task.index != docs[0].task.index {
          var m :| 0 <= m < |docs[1..]| && docs[1..][m] == d;
          assert docs[m + 1] == d;
        }
      }
    }
  }

  lemma {:induction false} InsertPermutes(d: Doc, s: seq<Doc>)
    ensures multiset(Insert(d, s)) == multiset(s) + multiset{d}
  {
    if s != [] && d.task.index < s[0].task.index {
      InsertPermutes(d, s[1..]);
      assert s == [s[0]] + s[1..];
    }
  }

  /** SortDesc returns a permutation of its input. */
  lemma {:induction false} SortPermutes(s: seq<Doc>)
    ensures multiset(SortDesc(s)) == multiset(s)
  {
    if s != [] {
      SortPermutes(s[1..]);
      InsertPermutes(s[0], SortDesc(s[1..]));
      assert s == [s[0]] + s[1..];
    }
  }

  lemma {:induction false} InsertDescending(d: Doc, s: seq<Doc>)
    requires StrictlyDescending(s)
    requires forall e :: e in s ==> e.task.index != d.task.index
    ensures StrictlyDescending(Insert(d, s))
  {
    if s != [] && d.task.index < s[0].task.index {
      InsertDescending(d, s[1..]);
      InsertPermutes(d, s[1..]);
      var r := Insert(d, s[1..]);
      forall e | e in r ensures e.task.index < s[0].task.index {
        assert e in multiset(r);
      }
    }
  }

  /** With unique indices the sorted sequence is strictly descending. */
  lemma {:induction false} SortDescending(s: seq<Doc>)
    requires UniqueIndex(s)
    ensures StrictlyDescending(SortDesc(s))
  {
    if s != [] {
      SortDescending(s[1..]);
      SortPermutes(s[1..]);
      forall e | e in SortDesc(s[1..]) ensures e.task.index != s[0].task.index {
        assert e in multiset(s[1..]);
        var m :| 0 <= m < |s[1..]| && s[1..][m] == e;
        assert s[m + 1] == e;
      }
      InsertDescending(s[0], SortDesc(s[1..]));
    }
  }

  /** Taking a prefix of a newest-first sequence keeps the newest elements. */
  lemma TakeNewest(sorted: seq<Doc>, limit: nat)
    requires StrictlyDescending(sorted)
    ensures var page := sorted[..Min(limit, |sorted|)];
      && |page| <= limit
      && StrictlyDescending(page)
      && (forall d :: d in page ==> d in sorted)
      && (forall d :: d in sorted && d !in page ==>
            |page| == limit && (limit > 0 ==> d.task.index < page[|page| - 1].task.index))
  {
    var page := sorted[..Min(limit, |sorted|)];
    forall d | d in sorted && d !in page
      ensures |page| == limit && (limit > 0 ==> d.task.index < page[|page| - 1].task.index)
    {
      var p :| 0 <= p < |sorted| && sorted[p] == d;
    }
  }

  /** The page holds at most `limit` tasks, newest first, each a stored task
      that passes the query; a passing task left off the page is older than
      every task on it, and only a full page leaves anything off. */
  lemma EvaluateSpec(q: Query, docs: seq<Doc>)
    requires UniqueIndex(docs)
    ensures var page := Evaluate(q, docs);
      && |page| <= q.limit
      && StrictlyDescending(page)
      && (forall d :: d in page ==> d in docs && Selected(q, d.task))
      && (forall d :: d in docs && Selected(q, d.task) && d !in page ==>
            |page| == q.limit && (q.limit > 0 ==> d.task.index < page[|page| - 1].task.index))
  {
    var f := Filter(q, docs);
    var sorted := SortDesc(f);
    FilterMembers(q, docs);
    SortPermutes(f);
    SortDescending(f);
    assert forall d :: d in sorted <==> d in multiset(f);
    TakeNewest(sorted, q.limit);
  }

  /** `before=i` with descending order and a limit yields the newest matching
      tasks above i, not the ones next to i: any matching task left out lies
      between i and the oldest task on the page. */
  lemma BeforeTakesNewest(q: Query, docs: seq<Doc>, d: Doc)
    requires UniqueIndex(docs)
    requires q.before.Some?
    requires d in docs && Selected(q, d.task) && d !in Evaluate(q, docs)
    ensures var page := Evaluate(q, docs);
      && q.before.value < d.task.index
      && |page| == q.limit
      && (q.limit > 0 ==> d.task.index < page[|page| - 1].task.index)
  {
    EvaluateSpec(q, docs);
  }

  // ---- the transaction: counter and page

  /** The projection `Select` keeps; workers and workers-versioned are not returned. */
  datatype ListedTask = ListedTask(
    index: int,
    blocks: int,
    specVersion: string,
    specConfig: string,
    created: int,
    results: map<string, ResultEntry>,
    key: string)

  function Project(d: Doc): ListedTask {
    ListedTask(d.task.index, d.task.blocks, d.task.specVersion, d.task.specConfig,
               d.task.created, d.task.results, d.key)
  }

  function ProjectAll(docs: seq<Doc>): (r: seq<ListedTask>)
    ensures |r| == |docs|
  {
    if docs == [] then [] else [Project(docs[0])] + ProjectAll(docs[1..])
  }

  /** Lines 176-193: read the query's documents one by one, appending each
      projected task to outputList. */
  method CollectPage(docs: seq<Doc>) returns (outputList: seq<ListedTask>)
    ensures outputList == ProjectAll(docs)
  {
    outputList := [];
    var i := 0;
    while i < |docs|
      invariant 0 <= i <= |docs|
      invariant outputList + ProjectAll(docs[i..]) == ProjectAll(docs)
    {
      assert docs[i..] == [docs[i]] + docs[i + 1..];
      outputList := outputList + [Project(docs[i])];
      i := i + 1;
    }
  }

  lemma {:induction false} ProjectAllAt(docs: seq<Doc>, i: nat)
    requires i < |docs|
    ensures ProjectAll(docs)[i] == Project(docs[i])
  {
    if i > 0 {
      ProjectAllAt(docs[1..], i - 1);
    }
  }

  /** The transaction's read of transitions-meta/next-index. */
  datatype CounterRead = CounterMissing | CounterValue(nextIndex: int) | CounterFailed

  function TotalOf(c: CounterRead): int
    requires !c.CounterFailed?
  {
    if c.CounterValue? then c.nextIndex else 0
  }

  /** Lines 203-225: only a non-empty page that is not among the latest
      twenty indices is cached, by the ages of its first and last tasks. */
  function PageDirective(page: seq<ListedTask>, total: int, now: int): (d: Directive)
    ensures page == [] ==> d == NoCache
    ensures page != [] && page[0].index + MaxResultsCount >= total ==> d == NoCache
    ensures page != [] && page[0].index + MaxResultsCount < total ==>
              d == RangeDirective(page[0].created, page[|page| - 1].created, now)
  {
    if |page| > 0 && page[0].index + MaxResultsCount < total
    then RangeDirective(page[0].created, page[|page| - 1].created, now)
    else NoCache
  }

  datatype ListingResponse =
    | BadRequest(reason: BadInput)
    | ServerError
    | Page(tasks: seq<ListedTask>, total: int, cache: Directive)

  /** The response of the listing handler for a collection and a counter read at time now. */
  function ListingOf(params: seq<Param>, docs: seq<Doc>, counter: CounterRead, now: int): ListingResponse {
    match DecodeQuery(params)
    case Err(e) => BadRequest(e)
    case Ok(q) =>
      if counter.CounterFailed? then ServerError
      else
        var total := TotalOf(counter);
        var tasks := if total != 0 then ProjectAll(Evaluate(q, docs)) else [];
        Page(tasks, total, PageDirective(tasks, total, now))
  }

  method Listing(params: seq<Param>, docs: seq<Doc>, counter: CounterRead, now: int) returns (resp: ListingResponse)
    ensures resp == ListingOf(params, docs, counter, now)
  {
    var q := BuildQuery(params);
    if q.Err? {
      return BadRequest(q.error);
    }
    var totalTaskCount := 0;
    var outputList: seq<ListedTask> := [];
    match counter {
      case CounterFailed =>
        return ServerError;
      case CounterMissing =>
        totalTaskCount := 0;
      case CounterValue(n) =>
        totalTaskCount := n;
    }
    if totalTaskCount != 0 {
      outputList := CollectPage(Evaluate(q.value, docs));
    }
    resp := Page(outputList, totalTaskCount, PageDirective(outputList, totalTaskCount, now));
  }

  /** What a successful listing returns: the counter as the total, nothing
      when the counter is missing or zero, otherwise at most `limit` (and so
      at most twenty) matching tasks, newest first. */
  lemma ListingPage(params: seq<Param>, docs: seq<Doc>, counter: CounterRead, now: int)
    requires UniqueIndex(docs)
    requires ListingOf(params, docs, counter, now).Page?
    ensures var resp := ListingOf(params, docs, counter, now);
      var q := DecodeQuery(params).value;
      && DecodeQuery(params).Ok? && !counter.CounterFailed?
      && resp.total == (if counter.CounterValue? then counter.nextIndex else 0)
      && (resp.total == 0 ==> resp.tasks == [])
      && |resp.tasks| <= q.limit <= MaxResultsCount
      && (forall i, j :: 0 <= i < j < |resp.tasks| ==> resp.tasks[i].index > resp.tasks[j].index)
      && (forall i :: 0 <= i < |resp.tasks| ==>
            exists d :: d in docs && Selected(q, d.task) && resp.tasks[i] == Project(d))
  {
    var q := DecodeQuery(params).value;
    DecodeQueryLimits(params);
    var resp := ListingOf(params, docs, counter, now);
    if resp.total != 0 {
      var page := Evaluate(q, docs);
      EvaluateSpec(q, docs);
      forall i | 0 <= i < |resp.tasks| ensures resp.tasks[i] == Project(page[i]) {
        ProjectAllAt(page, i);
      }
      assert forall i :: 0 <= i < |page| ==> page[i] in page;
    }
  }
}
