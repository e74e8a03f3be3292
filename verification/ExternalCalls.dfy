/** External calls: what one run of the declared calls computes when every call goes to its backend
    (pkg/external/runner.go), the laws of that run, and when a run whose calls are answered in
    another way reports the same. */
module ExternalCalls {
  import opened Common
  import opened Values

  type Entry = Fields
  type Data = Fields

  datatype SecretRef = SecretRef(name: string, namespace: string, key: string)
  datatype Auth = Auth(secretRef: Option<SecretRef>, env: string, header: string)

  datatype Call = Call(
    name: string, protocol: string, url: string, query: string, body: string,
    cacheFor: string, timeout: string, method_: string, headers: map<string, string>,
    expectedStatus: int, poolSize: int, auth: Option<Auth>,
    continueOnError: bool, when_: seq<string>, or_: seq<string>)

  /** Everything a protocol client receives for one call. */
  datatype Request = Request(gvk: string, call: Call, url: string, query: string, body: string, credential: string)

  /** The code the runner calls and does not define: condition evaluation, template
      resolution, credential lookup, the backend (an answer per request and instant)
      and the duration parser. */
  datatype Env = Env(
    holds: (Data, Call) -> bool,
    resolve: (Data, string) -> Result<string>,
    credential: Call -> Result<string>,
    fetch: (Request, int) -> Result<Entry>,
    ttl: string -> Result<int>)

  datatype RunError =
    | UrlError(index: nat, message: string)
    | QueryError(index: nat, message: string)
    | BodyError(index: nat, message: string)
    | AuthError(index: nat, name: string, message: string)
    | HardError(name: string, message: string)
    | CallFailed(name: string, message: string)

  function SkippedResult(protocol: string): Entry {
    if protocol == "" || protocol == "http" then
      map["status" := Str(""), "body" := Str(""), "error" := Str(""), "called" := Str("false")]
    else
      map["result" := Str(""), "raw" := Map(map[]), "error" := Str(""), "called" := Str("false")]
  }

  function ErrorResult(message: string): Entry {
    map["result" := Str(""), "raw" := Map(map[]), "error" := Str(message), "called" := Str("true")]
  }

  /** entry["error"] as a string; "" when it is absent or not a string. */
  function ErrorText(entry: Entry): string {
    if "error" in entry && entry["error"].Str? then entry["error"].text else ""
  }

  // ----- One run in which every call is fetched -----

  /** `made` records the request each executed call sent. */
  datatype Progress = Progress(results: map<string, Entry>, injected: bool, made: map<nat, Request>)

  datatype Report = Report(progress: Progress, err: Option<RunError>)

  const START := Progress(map[], false, map[])

  function Wrap(results: map<string, Entry>): Value {
    Map(map name | name in results :: Map(results[name]))
  }

  /** What templates see. The result map is injected by reference, so once it is in the
      data every later write to it shows. */
  function View(data: Data, p: Progress): Data {
    if p.injected then data["external" := Wrap(p.results)] else data
  }

  datatype Prepared = Skip | Abort(err: RunError) | Ready(request: Request)

  /** Conditions, then url, query, body and credential, in that order. */
  function Prepare(env: Env, gvk: string, view: Data, i: nat, call: Call): Prepared {
    if !env.holds(view, call) then Skip else
    match env.resolve(view, call.url)
    case Err(m) => Abort(UrlError(i, m))
    case Ok(url) =>
      match env.resolve(view, call.query)
      case Err(m) => Abort(QueryError(i, m))
      case Ok(query) =>
        match env.resolve(view, call.body)
        case Err(m) => Abort(BodyError(i, m))
        case Ok(body) =>
          match env.credential(call)
          case Err(m) => Abort(AuthError(i, call.name, m))
          case Ok(credential) => Ready(Request(gvk, call, url, query, body, credential))
  }

  /** The entry a fetch leaves, or Err when the run must stop without one. */
  function Settle(call: Call, answer: Result<Entry>): Result<Entry> {
    match answer
    case Ok(entry) => Ok(entry)
    case Err(m) => if call.continueOnError then Ok(ErrorResult(m)) else Err(m)
  }

  /** What a settled answer adds to the run. */
  function Record(p: Progress, i: nat, request: Request, settled: Result<Entry>): Report {
    var call, made := request.call, p.made[i := request];
    match settled
    case Err(m) => Report(p.(made := made), Some(HardError(call.name, m)))
    case Ok(entry) =>
      var failed := ErrorText(entry) != "" && !call.continueOnError;
      Report(Progress(p.results[call.name := entry], true, made),
             if failed then Some(CallFailed(call.name, ErrorText(entry))) else None)
  }

  function Step(env: Env, gvk: string, data: Data, p: Progress, i: nat, call: Call, t: int): Report {
    match Prepare(env, gvk, View(data, p), i, call)
    case Skip => Report(p.(results := p.results[call.name := SkippedResult(call.protocol)]), None)
    case Abort(e) => Report(p, Some(e))
    case Ready(request) =>
      Record(p, i, request, Settle(call, env.fetch(request, t)))
  }

  /** The run that always fetches, call i being answered at instant at[i]. */
  function FetchRun(env: Env, gvk: string, data: Data, calls: seq<Call>, at: seq<int>): (r: Report)
    requires |at| == |calls|
  {
    if calls == [] then Report(START, None)
    else
      var n := |calls| - 1;
      var before := FetchRun(env, gvk, data, calls[..n], at[..n]);
      if before.err.Some? then before
      else Step(env, gvk, data, before.progress, n, calls[n], at[n])
  }

  // ----- Laws of a run -----

  predicate DistinctNames(calls: seq<Call>) {
    forall i, j :: 0 <= i < j < |calls| ==> calls[i].name != calls[j].name
  }

  /** Once a prefix has failed, the rest of the list changes nothing. */
  lemma {:induction false} StoppedRunIgnoresTheRest(env: Env, gvk: string, data: Data, calls: seq<Call>, at: seq<int>,
      k: nat)
    requires k <= |calls| == |at|
    requires FetchRun(env, gvk, data, calls[..k], at[..k]).err.Some?
    ensures FetchRun(env, gvk, data, calls, at) == FetchRun(env, gvk, data, calls[..k], at[..k])
  {
    hide Step;
    if k == |calls| {
      assert calls[..k] == calls && at[..k] == at;
    } else {
      var n := |calls| - 1;
      assert calls[..n][..k] == calls[..k] && at[..n][..k] == at[..k];
      StoppedRunIgnoresTheRest(env, gvk, data, calls[..n], at[..n], k);
    }
  }

  lemma {:induction false} RunningPrefix(env: Env, gvk: string, data: Data, calls: seq<Call>, at: seq<int>, k: nat)
    requires k <= |calls| == |at|
    requires FetchRun(env, gvk, data, calls, at).err.None?
    ensures FetchRun(env, gvk, data, calls[..k], at[..k]).err.None?
  {
    if FetchRun(env, gvk, data, calls[..k], at[..k]).err.Some? {
      StoppedRunIgnoresTheRest(env, gvk, data, calls, at, k);
    }
  }

  ghost predicate NameAmong(calls: seq<Call>, name: string) {
    exists i :: 0 <= i < |calls| && calls[i].name == name
  }

  /** A step touches the result of its own call and the request of its own index only. */
  lemma StepFrame(env: Env, gvk: string, data: Data, p: Progress, i: nat, call: Call, t: int)
    ensures var q := Step(env, gvk, data, p, i, call, t).progress;
            && (q.results.Keys == p.results.Keys || q.results.Keys == p.results.Keys + {call.name})
            && (q.made.Keys == p.made.Keys || q.made.Keys == p.made.Keys + {i})
            && (forall name <- p.results | name != call.name :: q.results[name] == p.results[name])
            && (forall j <- p.made | j != i :: q.made[j] == p.made[j])
            && (p.injected ==> q.injected)
  {
  }

  /** Only calls of the list get results and only indices of the list are requested. */
  lemma {:induction false} RunStaysInList(env: Env, gvk: string, data: Data, calls: seq<Call>, at: seq<int>)
    requires |at| == |calls|
    ensures forall name <- FetchRun(env, gvk, data, calls, at).progress.results :: NameAmong(calls, name)
    ensures forall i <- FetchRun(env, gvk, data, calls, at).progress.made :: i < |calls|
  {
    if calls != [] {
      var n := |calls| - 1;
      RunStaysInList(env, gvk, data, calls[..n], at[..n]);
      var before := FetchRun(env, gvk, data, calls[..n], at[..n]).progress;
      var after := FetchRun(env, gvk, data, calls, at).progress;
      StepFrame(env, gvk, data, before, n, calls[n], at[n]);
      forall name | name in after.results ensures NameAmong(calls, name) {
        if name in before.results {
          assert NameAmong(calls[..n], name);
          var i :| 0 <= i < n && calls[..n][i].name == name;
          assert calls[i].name == name;
        } else {
          assert calls[n].name == name;
        }
      }
    }
  }

  /** Call k is the one that ends the run: everything before it succeeded or may fail. */
  predicate StopsAt(env: Env, gvk: string, data: Data, calls: seq<Call>, at: seq<int>, k: nat)
    requires |at| == |calls|
  {
    && k < |calls|
    && FetchRun(env, gvk, data, calls[..k], at[..k]).err.None?
    && FetchRun(env, gvk, data, calls[..k + 1], at[..k + 1]).err.Some?
  }

  lemma StopsInPrefix(env: Env, gvk: string, data: Data, calls: seq<Call>, at: seq<int>, n: nat, k: nat)
    requires |at| == |calls| && n <= |calls| && StopsAt(env, gvk, data, calls[..n], at[..n], k)
    ensures StopsAt(env, gvk, data, calls, at, k)
  {
    hide FetchRun;
    assert calls[..n][..k] == calls[..k] && at[..n][..k] == at[..k];
    assert calls[..n][..k + 1] == calls[..k + 1] && at[..n][..k + 1] == at[..k + 1];
  }

  lemma {:induction false} FailedRunStopsSomewhere(env: Env, gvk: string, data: Data, calls: seq<Call>, at: seq<int>)
    requires |at| == |calls|
    ensures FetchRun(env, gvk, data, calls, at).err.Some? <==> exists k: nat :: StopsAt(env, gvk, data, calls, at, k)
  {
    if FetchRun(env, gvk, data, calls, at).err.Some? {
      var n := |calls| - 1;
      FailedRunStopsSomewhere(env, gvk, data, calls[..n], at[..n]);
      if FetchRun(env, gvk, data, calls[..n], at[..n]).err.Some? {
        var k: nat :| StopsAt(env, gvk, data, calls[..n], at[..n], k);
        StopsInPrefix(env, gvk, data, calls, at, n, k);
      } else {
        assert calls[..n + 1] == calls && at[..n + 1] == at;
        assert StopsAt(env, gvk, data, calls, at, n);
      }
    } else {
      forall k: nat | k < |calls| ensures !StopsAt(env, gvk, data, calls, at, k) {
        RunningPrefix(env, gvk, data, calls, at, k + 1);
      }
    }
  }

  /** The report of a run that stops at k is step k's, whatever calls follow: nothing later was
      requested and nothing later has a result. */
  lemma {:induction false} NothingAfterTheStop(
      env: Env, gvk: string, data: Data, calls: seq<Call>, at: seq<int>, k: nat, rest: seq<Call>, more: seq<int>)
    requires |at| == |calls| && |rest| == |more|
    requires StopsAt(env, gvk, data, calls, at, k)
    ensures FetchRun(env, gvk, data, calls, at)
         == Step(env, gvk, data, FetchRun(env, gvk, data, calls[..k], at[..k]).progress, k, calls[k], at[k])
    ensures FetchRun(env, gvk, data, calls[..k + 1] + rest, at[..k + 1] + more) == FetchRun(env, gvk, data, calls, at)
    ensures forall i <- FetchRun(env, gvk, data, calls, at).progress.made :: i <= k
    ensures forall name <- FetchRun(env, gvk, data, calls, at).progress.results :: NameAmong(calls[..k + 1], name)
  {
    var cut, cutAt := calls[..k + 1], at[..k + 1];
    assert cut[..k] == calls[..k] && cutAt[..k] == at[..k];
    StoppedRunIgnoresTheRest(env, gvk, data, calls, at, k + 1);
    RunStaysInList(env, gvk, data, cut, cutAt);
    assert (cut + rest)[..k + 1] == cut && (cutAt + more)[..k + 1] == cutAt;
    StoppedRunIgnoresTheRest(env, gvk, data, cut + rest, cutAt + more, k + 1);
  }

  /** Every result and request of p is one of q. */
  predicate Extends(p: Progress, q: Progress) {
    && (forall name <- p.results :: name in q.results && q.results[name] == p.results[name])
    && (forall i <- p.made :: i in q.made && q.made[i] == p.made[i])
    && (p.injected ==> q.injected)
  }

  lemma StepExtends(env: Env, gvk: string, data: Data, p: Progress, i: nat, call: Call, t: int)
    requires call.name !in p.results && i !in p.made
    ensures Extends(p, Step(env, gvk, data, p, i, call, t).progress)
  {
    StepFrame(env, gvk, data, p, i, call, t);
    hide Step;
  }

  lemma NameIsNew(calls: seq<Call>)
    requires DistinctNames(calls) && calls != []
    ensures DistinctNames(calls[..|calls| - 1]) && !NameAmong(calls[..|calls| - 1], calls[|calls| - 1].name)
  {
  }

  /** With distinct names, no result is ever overwritten, and no request either. */
  lemma {:induction false} ResultsAreNeverOverwritten(env: Env, gvk: string, data: Data, calls: seq<Call>,
      at: seq<int>, k: nat)
    requires k <= |calls| == |at| && DistinctNames(calls)
    ensures Extends(FetchRun(env, gvk, data, calls[..k], at[..k]).progress,
              FetchRun(env, gvk, data, calls, at).progress)
  {
    if k == |calls| {
      assert calls[..k] == calls && at[..k] == at;
    } else {
      var n := |calls| - 1;
      assert calls[..n][..k] == calls[..k] && at[..n][..k] == at[..k];
      NameIsNew(calls);
      hide Step, DistinctNames, NameAmong;
      ResultsAreNeverOverwritten(env, gvk, data, calls[..n], at[..n], k);
      RunStaysInList(env, gvk, data, calls[..n], at[..n]);
      var before := FetchRun(env, gvk, data, calls[..n], at[..n]).progress;
      StepExtends(env, gvk, data, before, n, calls[n], at[n]);
    }
  }

  /** The result of an executed call is in the data of every later call. */
  lemma {:induction false} LaterCallsSeeExecutedResults(
      env: Env, gvk: string, data: Data, calls: seq<Call>, at: seq<int>, j: nat, k: nat)
    requires j < k <= |calls| == |at| && DistinctNames(calls)
    requires FetchRun(env, gvk, data, calls[..k], at[..k]).err.None?
    requires j in FetchRun(env, gvk, data, calls[..k], at[..k]).progress.made
    ensures var p := FetchRun(env, gvk, data, calls[..k], at[..k]).progress;
            var request := p.made[j];
            var view := View(data, p);
            && request.call == calls[j]
            && Settle(calls[j], env.fetch(request, at[j])).Ok?
            && "external" in view && view["external"].Map?
            && calls[j].name in view["external"].fields
            && view["external"].fields[calls[j].name] == Map(Settle(calls[j], env.fetch(request, at[j])).value)
  {
    var cut, cutAt := calls[..k], at[..k];
    RunningPrefix(env, gvk, data, cut, cutAt, j + 1);
    MadeAt(env, gvk, data, cut, cutAt, j);
    ResultsAreNeverOverwritten(env, gvk, data, cut, cutAt, j + 1);
    ExecutedStep(env, gvk, data, cut[..j + 1], cutAt[..j + 1]);
  }

  /** The last call of a run that did not stop: if it was requested, its settled answer is its result. */
  lemma ExecutedStep(env: Env, gvk: string, data: Data, calls: seq<Call>, at: seq<int>)
    requires 0 < |calls| == |at|
    requires FetchRun(env, gvk, data, calls, at).err.None?
    requires |calls| - 1 in FetchRun(env, gvk, data, calls, at).progress.made
    ensures var n := |calls| - 1;
            var p := FetchRun(env, gvk, data, calls, at).progress;
            var request := p.made[n];
            && request.call == calls[n]
            && Settle(calls[n], env.fetch(request, at[n])).Ok?
            && p.injected
            && calls[n].name in p.results
            && p.results[calls[n].name] == Settle(calls[n], env.fetch(request, at[n])).value
  {
    var n := |calls| - 1;
    RunStaysInList(env, gvk, data, calls[..n], at[..n]);
    var before := FetchRun(env, gvk, data, calls[..n], at[..n]);
    assert FetchRun(env, gvk, data, calls, at) == Step(env, gvk, data, before.progress, n, calls[n], at[n]);
  }

  /** The request recorded for j was recorded by step j. */
  lemma {:induction false} MadeAt(env: Env, gvk: string, data: Data, calls: seq<Call>, at: seq<int>, j: nat)
    requires j < |calls| == |at|
    requires j in FetchRun(env, gvk, data, calls, at).progress.made
    ensures j in FetchRun(env, gvk, data, calls[..j + 1], at[..j + 1]).progress.made
    ensures FetchRun(env, gvk, data, calls[..j + 1], at[..j + 1]).progress.made[j]
         == FetchRun(env, gvk, data, calls, at).progress.made[j]
  {
    if j + 1 == |calls| {
      assert calls[..j + 1] == calls && at[..j + 1] == at;
    } else {
      var n := |calls| - 1;
      assert calls[..n][..j + 1] == calls[..j + 1] && at[..n][..j + 1] == at[..j + 1];
      StepFrame(env, gvk, data, FetchRun(env, gvk, data, calls[..n], at[..n]).progress, n, calls[n], at[n]);
      MadeAt(env, gvk, data, calls[..n], at[..n], j);
    }
  }

  /** A call reported as failed still has its own entry in the returned data. */
  lemma {:induction false} FailedCallKeepsItsEntry(env: Env, gvk: string, data: Data, calls: seq<Call>, at: seq<int>)
    requires |at| == |calls|
    requires FetchRun(env, gvk, data, calls, at).err.Some?
    requires FetchRun(env, gvk, data, calls, at).err.value.CallFailed?
    ensures var r := FetchRun(env, gvk, data, calls, at);
            var view := View(data, r.progress);
            var name := r.err.value.name;
            && "external" in view && view["external"].Map?
            && name in view["external"].fields
            && view["external"].fields[name].Map?
            && ErrorText(view["external"].fields[name].fields) == r.err.value.message
            && r.err.value.message != ""
  {
    var n := |calls| - 1;
    if FetchRun(env, gvk, data, calls[..n], at[..n]).err.Some? {
      FailedCallKeepsItsEntry(env, gvk, data, calls[..n], at[..n]);
    }
  }

  /** Exactly when the zero result of a skipped call reaches the templates: the result map is
      only put into the data when a call executes, so if none has, no skipped result shows. */
  lemma {:induction false} SkippedResultVisibleIffSomethingRan(
      env: Env, gvk: string, data: Data, calls: seq<Call>, at: seq<int>, j: nat)
    requires j < |calls| == |at| && DistinctNames(calls)
    requires FetchRun(env, gvk, data, calls, at).err.None?
    requires j !in FetchRun(env, gvk, data, calls, at).progress.made
    ensures var p := FetchRun(env, gvk, data, calls, at).progress;
            && calls[j].name in p.results
            && p.results[calls[j].name] == SkippedResult(calls[j].protocol)
            && View(data, p) == if p.made != map[] then data["external" := Wrap(p.results)] else data
  {
    RunningPrefix(env, gvk, data, calls, at, j);
    RunningPrefix(env, gvk, data, calls, at, j + 1);
    assert calls[..j + 1][..j] == calls[..j] && at[..j + 1][..j] == at[..j];
    ResultsAreNeverOverwritten(env, gvk, data, calls, at, j + 1);
    InjectedIffMade(env, gvk, data, calls, at);
    var step := FetchRun(env, gvk, data, calls[..j + 1], at[..j + 1]).progress;
    assert j !in step.made;
  }

  lemma {:induction false} InjectedIffMade(env: Env, gvk: string, data: Data, calls: seq<Call>, at: seq<int>)
    requires |at| == |calls|
    requires FetchRun(env, gvk, data, calls, at).err.None?
    ensures var p := FetchRun(env, gvk, data, calls, at).progress; p.injected <==> p.made != map[]
  {
    if calls != [] {
      var n := |calls| - 1;
      RunningPrefix(env, gvk, data, calls, at, n);
      InjectedIffMade(env, gvk, data, calls[..n], at[..n]);
      var before := FetchRun(env, gvk, data, calls[..n], at[..n]).progress;
      var after := FetchRun(env, gvk, data, calls, at).progress;
      if n in after.made { assert after.made != map[]; }
    }
  }

  // ----- Calls that cannot be resolved or authenticated -----

  predicate PreparationError(e: RunError) { e.UrlError? || e.QueryError? || e.BodyError? || e.AuthError? }

  /** The call is due, but one of its templates or its credential fails. */
  predicate Unresolvable(env: Env, view: Data, call: Call) {
    && env.holds(view, call)
    && (|| env.resolve(view, call.url).Err? || env.resolve(view, call.query).Err?
        || env.resolve(view, call.body).Err? || env.credential(call).Err?)
  }

  /** A run ends with a preparation error exactly when it comes to an unresolvable call; that call
      is neither requested nor given a result, so the report is otherwise that of the calls before. */
  lemma {:induction false} UnresolvableCallLeavesNoTrace(env: Env, gvk: string, data: Data, calls: seq<Call>,
      at: seq<int>)
    requires |at| == |calls|
    requires FetchRun(env, gvk, data, calls, at).err.Some?
    requires PreparationError(FetchRun(env, gvk, data, calls, at).err.value)
    ensures var r := FetchRun(env, gvk, data, calls, at);
            var k := r.err.value.index;
            && k < |calls| && k !in r.progress.made
            && FetchRun(env, gvk, data, calls[..k], at[..k]) == Report(r.progress, None)
            && Unresolvable(env, View(data, r.progress), calls[k])
  {
    var n := |calls| - 1;
    var before := FetchRun(env, gvk, data, calls[..n], at[..n]);
    RunStaysInList(env, gvk, data, calls[..n], at[..n]);
    if before.err.Some? {
      UnresolvableCallLeavesNoTrace(env, gvk, data, calls[..n], at[..n]);
      var k := before.err.value.index;
      assert calls[..n][..k] == calls[..k] && at[..n][..k] == at[..k];
    }
  }

  lemma UnresolvableCallStops(env: Env, gvk: string, data: Data, calls: seq<Call>, at: seq<int>, k: nat)
    requires k < |calls| == |at| && FetchRun(env, gvk, data, calls[..k], at[..k]).err.None?
    requires Unresolvable(env, View(data, FetchRun(env, gvk, data, calls[..k], at[..k]).progress), calls[k])
    ensures FetchRun(env, gvk, data, calls, at).err.Some?
    ensures PreparationError(FetchRun(env, gvk, data, calls, at).err.value)
    ensures FetchRun(env, gvk, data, calls, at).err.value.index == k
  {
    assert calls[..k + 1][..k] == calls[..k] && at[..k + 1][..k] == at[..k];
    StoppedRunIgnoresTheRest(env, gvk, data, calls, at, k + 1);
  }

  // ----- A run whose requests are answered by anyone -----

  function AnsweredStep(env: Env, gvk: string, data: Data, p: Progress, i: nat, call: Call,
                        settled: Result<Entry>): Report {
    match Prepare(env, gvk, View(data, p), i, call)
    case Skip => Report(p.(results := p.results[call.name := SkippedResult(call.protocol)]), None)
    case Abort(e) => Report(p, Some(e))
    case Ready(request) => Record(p, i, request, settled)
  }

  /** The run in which call i, if it is requested, gets the settled answer answers[i]. */
  function AnsweredRun(env: Env, gvk: string, data: Data, calls: seq<Call>, answers: seq<Result<Entry>>): (r: Report)
    requires |answers| == |calls|
  {
    if calls == [] then Report(START, None)
    else
      var n := |calls| - 1;
      var before := AnsweredRun(env, gvk, data, calls[..n], answers[..n]);
      if before.err.Some? then before
      else AnsweredStep(env, gvk, data, before.progress, n, calls[n], answers[n])
  }

  /** What a stop leaves in the report is what the whole list leaves. */
  lemma {:induction false} StoppedAnsweredRun(
      env: Env, gvk: string, data: Data, calls: seq<Call>, answers: seq<Result<Entry>>, k: nat)
    requires k <= |calls| == |answers|
    requires AnsweredRun(env, gvk, data, calls[..k], answers[..k]).err.Some?
    ensures AnsweredRun(env, gvk, data, calls, answers) == AnsweredRun(env, gvk, data, calls[..k], answers[..k])
  {
    hide AnsweredStep;
    if k == |calls| {
      assert calls[..k] == calls && answers[..k] == answers;
    } else {
      var n := |calls| - 1;
      assert calls[..n][..k] == calls[..k] && answers[..n][..k] == answers[..k];
      StoppedAnsweredRun(env, gvk, data, calls[..n], answers[..n], k);
    }
  }

  /** A step touches the result of its own call and the request of its own index only. */
  lemma AnsweredStepFrame(env: Env, gvk: string, data: Data, p: Progress, i: nat, call: Call, settled: Result<Entry>)
    ensures var q := AnsweredStep(env, gvk, data, p, i, call, settled).progress;
            && (q.results.Keys == p.results.Keys || q.results.Keys == p.results.Keys + {call.name})
            && (q.made.Keys == p.made.Keys || q.made.Keys == p.made.Keys + {i})
            && (forall name <- p.results | name != call.name :: q.results[name] == p.results[name])
            && (forall j <- p.made | j != i :: q.made[j] == p.made[j])
  {
  }

  lemma {:induction false} AnsweredRunStaysInList(
      env: Env, gvk: string, data: Data, calls: seq<Call>, answers: seq<Result<Entry>>)
    requires |answers| == |calls|
    ensures forall name <- AnsweredRun(env, gvk, data, calls, answers).progress.results :: NameAmong(calls, name)
    ensures forall i <- AnsweredRun(env, gvk, data, calls, answers).progress.made :: i < |calls|
  {
    if calls != [] {
      var n := |calls| - 1;
      AnsweredRunStaysInList(env, gvk, data, calls[..n], answers[..n]);
      var before := AnsweredRun(env, gvk, data, calls[..n], answers[..n]).progress;
      var after := AnsweredRun(env, gvk, data, calls, answers).progress;
      AnsweredStepFrame(env, gvk, data, before, n, calls[n], answers[n]);
      hide AnsweredStep;
      forall name | name in after.results ensures NameAmong(calls, name) {
        if name in before.results {
          assert NameAmong(calls[..n], name);
          var i :| 0 <= i < n && calls[..n][i].name == name;
          assert calls[i].name == name;
        } else {
          assert calls[n].name == name;
        }
      }
    }
  }

  /** Whatever the answers, the request recorded for call j is what call j prepares for some data. */
  lemma {:induction false} MadeIsPrepared(
      env: Env, gvk: string, data: Data, calls: seq<Call>, answers: seq<Result<Entry>>, j: nat)
    requires |answers| == |calls|
    requires j in AnsweredRun(env, gvk, data, calls, answers).progress.made
    ensures j < |calls|
    ensures var r := AnsweredRun(env, gvk, data, calls, answers).progress.made[j];
            exists view :: Prepare(env, gvk, view, j, calls[j]) == Ready(r)
  {
    AnsweredRunStaysInList(env, gvk, data, calls, answers);
    var n := |calls| - 1;
    var before := AnsweredRun(env, gvk, data, calls[..n], answers[..n]);
    OneMoreAnswer(env, gvk, data, calls, answers);
    AnsweredRunStaysInList(env, gvk, data, calls[..n], answers[..n]);
    AnsweredStepFrame(env, gvk, data, before.progress, n, calls[n], answers[n]);
    hide AnsweredRun, AnsweredStep, Prepare;
    if j in before.progress.made {
      MadeIsPrepared(env, gvk, data, calls[..n], answers[..n], j);
    } else {
      StepMakes(env, gvk, data, before.progress, n, calls[n], answers[n]);
    }
  }

  lemma StepMakes(env: Env, gvk: string, data: Data, p: Progress, i: nat, call: Call, settled: Result<Entry>)
    requires i !in p.made
    ensures var made := AnsweredStep(env, gvk, data, p, i, call, settled).progress.made;
            i in made ==> Prepare(env, gvk, View(data, p), i, call) == Ready(made[i])
  {
  }

  /** What a report tells of the answer call j was given. */
  ghost predicate Tells(r: Report, j: nat, call: Call, answer: Result<Entry>) {
    && j in r.progress.made && r.progress.made[j].call == call
    && match answer
       case Ok(entry) => call.name in r.progress.results && r.progress.results[call.name] == entry
       case Err(m) => call.name !in r.progress.results && r.err == Some(HardError(call.name, m))
  }

  lemma LastAnswerIsTold(env: Env, gvk: string, data: Data, p: Progress, i: nat, call: Call, settled: Result<Entry>)
    requires call.name !in p.results && i !in p.made
    requires i in AnsweredStep(env, gvk, data, p, i, call, settled).progress.made
    ensures Tells(AnsweredStep(env, gvk, data, p, i, call, settled), i, call, settled)
  {
  }

  lemma ToldStays(env: Env, gvk: string, data: Data, p: Progress, i: nat, call: Call, settled: Result<Entry>,
                  j: nat, earlier: Call, answer: Result<Entry>)
    requires Tells(Report(p, None), j, earlier, answer) && earlier.name != call.name && j != i
    ensures Tells(AnsweredStep(env, gvk, data, p, i, call, settled), j, earlier, answer)
  {
    AnsweredStepFrame(env, gvk, data, p, i, call, settled);
    hide AnsweredStep;
  }

  lemma OneMoreAnswer(env: Env, gvk: string, data: Data, calls: seq<Call>, answers: seq<Result<Entry>>)
    requires 0 < |calls| == |answers|
    ensures var n := |calls| - 1;
            var before := AnsweredRun(env, gvk, data, calls[..n], answers[..n]);
            AnsweredRun(env, gvk, data, calls, answers)
            == if before.err.Some? then before
               else AnsweredStep(env, gvk, data, before.progress, n, calls[n], answers[n])
  {
    hide AnsweredStep;
  }

  lemma OtherNames(calls: seq<Call>, j: nat)
    requires DistinctNames(calls) && j + 1 < |calls|
    ensures calls[j].name != calls[|calls| - 1].name
  {
  }

  /** With distinct names, the report tells every answer the run was given. */
  lemma {:induction false} AnswersAreTold(
      env: Env, gvk: string, data: Data, calls: seq<Call>, answers: seq<Result<Entry>>, j: nat)
    requires |answers| == |calls| && DistinctNames(calls)
    requires j in AnsweredRun(env, gvk, data, calls, answers).progress.made
    ensures j < |calls| && Tells(AnsweredRun(env, gvk, data, calls, answers), j, calls[j], answers[j])
  {
    hide *;
    AnsweredRunStaysInList(env, gvk, data, calls, answers);
    var n := |calls| - 1;
    var before := AnsweredRun(env, gvk, data, calls[..n], answers[..n]);
    NameIsNew(calls);
    OneMoreAnswer(env, gvk, data, calls, answers);
    AnsweredRunStaysInList(env, gvk, data, calls[..n], answers[..n]);
    AnsweredStepFrame(env, gvk, data, before.progress, n, calls[n], answers[n]);
    if before.err.Some? {
      AnswersAreTold(env, gvk, data, calls[..n], answers[..n], j);
    } else if j < n {
      AnswersAreTold(env, gvk, data, calls[..n], answers[..n], j);
      assert before == Report(before.progress, None);
      OtherNames(calls, j);
      ToldStays(env, gvk, data, before.progress, n, calls[n], answers[n], j, calls[j], answers[j]);
    } else {
      assert calls[n].name !in before.progress.results;
      LastAnswerIsTold(env, gvk, data, before.progress, n, calls[n], answers[n]);
    }
  }

  // ----- Agreement with the fetching run -----

  /** Every request's answer is what a fetch at its instant leaves. */
  ghost predicate AllCurrent(env: Env, made: map<nat, Request>, answers: seq<Result<Entry>>, at: seq<int>) {
    forall j <- made ::
      j < |answers| && j < |at| && answers[j] == Settle(made[j].call, env.fetch(made[j], at[j]))
  }

  /** A step whose answer is current is the fetching step. */
  lemma StepIsAnswered(env: Env, gvk: string, data: Data, p: Progress, i: nat, call: Call, settled: Result<Entry>,
                       t: int)
    requires i !in p.made
    requires i in AnsweredStep(env, gvk, data, p, i, call, settled).progress.made ==>
               settled == Settle(call, env.fetch(AnsweredStep(env, gvk, data, p, i, call, settled).progress.made[i], t))
    ensures AnsweredStep(env, gvk, data, p, i, call, settled) == Step(env, gvk, data, p, i, call, t)
  {
    var prepared := Prepare(env, gvk, View(data, p), i, call);
    if prepared.Ready? {
      assert prepared.request.call == call;
      assert Record(p, i, prepared.request, settled).progress.made == p.made[i := prepared.request];
    }
  }

  lemma {:induction false} AgreesWhenCurrent(
      env: Env, gvk: string, data: Data, calls: seq<Call>, answers: seq<Result<Entry>>, at: seq<int>)
    requires |answers| == |at| == |calls|
    requires AllCurrent(env, AnsweredRun(env, gvk, data, calls, answers).progress.made, answers, at)
    ensures AnsweredRun(env, gvk, data, calls, answers) == FetchRun(env, gvk, data, calls, at)
  {
    if calls != [] {
      var n := |calls| - 1;
      var before := AnsweredRun(env, gvk, data, calls[..n], answers[..n]);
      var whole := AnsweredRun(env, gvk, data, calls, answers);
      AnsweredRunStaysInList(env, gvk, data, calls[..n], answers[..n]);
      AnsweredStepFrame(env, gvk, data, before.progress, n, calls[n], answers[n]);
      hide AnsweredStep, Step, Settle;
      forall j | j in before.progress.made
        ensures j < n
        ensures answers[..n][j] == Settle(before.progress.made[j].call, env.fetch(before.progress.made[j], at[..n][j]))
      {
        assert j in whole.progress.made && whole.progress.made[j] == before.progress.made[j];
      }
      AgreesWhenCurrent(env, gvk, data, calls[..n], answers[..n], at[..n]);
      if before.err.None? {
        CallOfStep(env, gvk, data, before.progress, n, calls[n], answers[n]);
        StepIsAnswered(env, gvk, data, before.progress, n, calls[n], answers[n], at[n]);
      }
    }
  }

  lemma CallOfStep(env: Env, gvk: string, data: Data, p: Progress, i: nat, call: Call, settled: Result<Entry>)
    requires i !in p.made
    ensures var made := AnsweredStep(env, gvk, data, p, i, call, settled).progress.made;
            i in made ==> made[i].call == call
  {
  }

  /** The answers a fetching run is given. */
  ghost function FetchedAnswers(env: Env, gvk: string, data: Data, calls: seq<Call>, at: seq<int>)
      : (answers: seq<Result<Entry>>)
    requires |at| == |calls|
    ensures |answers| == |calls|
  {
    if calls == [] then []
    else
      var n := |calls| - 1;
      var p := FetchRun(env, gvk, data, calls[..n], at[..n]).progress;
      var prepared := Prepare(env, gvk, View(data, p), n, calls[n]);
      FetchedAnswers(env, gvk, data, calls[..n], at[..n]) +
      [if prepared.Ready? then Settle(calls[n], env.fetch(prepared.request, at[n])) else Err("")]
  }

  lemma {:induction false} FetchRunIsAnswered(env: Env, gvk: string, data: Data, calls: seq<Call>, at: seq<int>)
    requires |at| == |calls|
    ensures AnsweredRun(env, gvk, data, calls, FetchedAnswers(env, gvk, data, calls, at))
         == FetchRun(env, gvk, data, calls, at)
    ensures AllCurrent(env, FetchRun(env, gvk, data, calls, at).progress.made,
                       FetchedAnswers(env, gvk, data, calls, at), at)
  {
    hide Step, AnsweredStep, Settle, Prepare;
    if calls != [] {
      var n := |calls| - 1;
      var answers := FetchedAnswers(env, gvk, data, calls, at);
      FetchRunIsAnswered(env, gvk, data, calls[..n], at[..n]);
      assert answers[..n] == FetchedAnswers(env, gvk, data, calls[..n], at[..n]);
      var before := FetchRun(env, gvk, data, calls[..n], at[..n]);
      RunStaysInList(env, gvk, data, calls[..n], at[..n]);
      StepFrame(env, gvk, data, before.progress, n, calls[n], at[n]);
      if before.err.None? {
        LastFetched(env, gvk, data, before.progress, n, calls[n], at[n], answers[n]);
      }
      var made := FetchRun(env, gvk, data, calls, at).progress.made;
      forall j | j in made
        ensures j < |answers| && j < |at| && answers[j] == Settle(made[j].call, env.fetch(made[j], at[j]))
      {
        if j in before.progress.made { assert answers[j] == answers[..n][j]; }
      }
    }
  }

  lemma LastFetched(env: Env, gvk: string, data: Data, p: Progress, i: nat, call: Call, t: int, settled: Result<Entry>)
    requires i !in p.made
    requires var prepared := Prepare(env, gvk, View(data, p), i, call);
             prepared.Ready? ==> settled == Settle(call, env.fetch(prepared.request, t))
    ensures AnsweredStep(env, gvk, data, p, i, call, settled) == Step(env, gvk, data, p, i, call, t)
    ensures var made := Step(env, gvk, data, p, i, call, t).progress.made;
            i in made ==> settled == Settle(made[i].call, env.fetch(made[i], t))
  {
    var prepared := Prepare(env, gvk, View(data, p), i, call);
    if prepared.Ready? {
      assert prepared.request.call == call;
      assert Record(p, i, prepared.request, settled).progress.made == p.made[i := prepared.request];
    }
  }

  /** Exactly when a run, answered in whatever way, reports what fetching each call at its instant
      reports: every answer it used is the current one. */
  lemma AgreesIffCurrent(
      env: Env, gvk: string, data: Data, calls: seq<Call>, answers: seq<Result<Entry>>, at: seq<int>)
    requires |answers| == |at| == |calls| && DistinctNames(calls)
    ensures AnsweredRun(env, gvk, data, calls, answers) == FetchRun(env, gvk, data, calls, at)
       <==> AllCurrent(env, AnsweredRun(env, gvk, data, calls, answers).progress.made, answers, at)
  {
    var r := AnsweredRun(env, gvk, data, calls, answers);
    if r == FetchRun(env, gvk, data, calls, at) {
      var fetched := FetchedAnswers(env, gvk, data, calls, at);
      FetchRunIsAnswered(env, gvk, data, calls, at);
      hide AnsweredRun, FetchRun, FetchedAnswers, Settle;
      forall j | j in r.progress.made
        ensures j < |answers| && j < |at|
        ensures answers[j] == Settle(r.progress.made[j].call, env.fetch(r.progress.made[j], at[j]))
      {
        AnswersAreTold(env, gvk, data, calls, answers, j);
        AnswersAreTold(env, gvk, data, calls, fetched, j);
      }
    }
    if AllCurrent(env, r.progress.made, answers, at) {
      AgreesWhenCurrent(env, gvk, data, calls, answers, at);
    }
  }
}
