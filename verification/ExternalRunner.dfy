/** The runner itself (pkg/external/runner.go), sharing the cache with every other goroutine,
    and its agreement with the run that always fetches. */
module ExternalRunner {
  import opened Common
  import opened ExternalCalls
  import opened LoneRunner
  import opened ResultCache

  /** The result map of one run. Resolvers hold it by reference. */
  class ResultMap {
    var entries: map<string, Entry>

    constructor ()
      ensures entries == map[]
    {
      entries := map[];
    }
  }

  datatype Resolver = Resolver(base: Data, external: ResultMap?)

  function DataOf(r: Resolver): Data
    reads r.external
  {
    if r.external == null then r.base else r.base["external" := Wrap(r.external.entries)]
  }

  /** A shallow copy whose "external" key is the live result map. */
  function WithExternal(r: Resolver, results: ResultMap): Resolver
    reads results
  {
    if |results.entries| == 0 then r else Resolver(r.base, results)
  }

  // ----- How a run's answers are accounted for -----

  /** An unexpired entry stored under the request's key by then. */
  ghost predicate FromCache(log: seq<Stored>, request: Request, answer: Result<Entry>, at: int) {
    exists i :: 0 <= i < |log| && Shares(log[i], request) && answer == Ok(log[i].value.data)
                && log[i].storedAt <= at <= log[i].value.expiresAt
  }

  /** The answer used at instant `at` is what a fetch leaves then, or comes from the cache. */
  ghost predicate Served(env: Env, log: seq<Stored>, request: Request, answer: Result<Entry>, at: int) {
    answer == Settle(request.call, env.fetch(request, at)) || FromCache(log, request, answer, at)
  }

  ghost predicate AllServed(env: Env, log: seq<Stored>, made: map<nat, Request>, answers: seq<Result<Entry>>,
                            at: seq<int>) {
    && |answers| == |at|
    && (forall i <- made :: i < |at| && Served(env, log, made[i], answers[i], at[i]))
  }

  /** Every requested call's instant lies in the run. */
  ghost predicate During(made: map<nat, Request>, at: seq<int>, start: int, end: int) {
    forall i <- made :: i < |at| && start <= at[i] <= end
  }

  /** `r` is the report of the run given these answers, each served for its call's instant `at`,
      which lies in the run. */
  ghost predicate Accounts(log: seq<Stored>, env: Env, gvk: string, data: Data, calls: seq<Call>, r: Report,
                           answers: seq<Result<Entry>>, at: seq<int>, start: int, end: int) {
    && |answers| == |at| == |calls|
    && r == AnsweredRun(env, gvk, data, calls, answers)
    && AllServed(env, log, r.progress.made, answers, at)
    && During(r.progress.made, at, start, end)
  }

  // ----- Agreement with the fetching run -----

  /** At every instant at which a stored answer can be served to a request of the run, a fetch for
      that request would leave it. For each Store, request and instant this is exactly what makes
      serving it safe (ServingIsSafeIff). */
  ghost predicate ServableIsCurrent(env: Env, log: seq<Stored>, made: map<nat, Request>) {
    forall i, j, t | 0 <= i < |log| && j in made && Shares(log[i], made[j])
                     && log[i].storedAt <= t <= log[i].value.expiresAt ::
      Current(env, log[i], made[j], t)
  }

  lemma ServedIsCurrent(env: Env, log: seq<Stored>, made: map<nat, Request>, answers: seq<Result<Entry>>, at: seq<int>)
    requires ServableIsCurrent(env, log, made) && AllServed(env, log, made, answers, at)
    ensures AllCurrent(env, made, answers, at)
  {
    hide Shares, Settle;
    forall j | j in made
      ensures j < |answers| && j < |at| && answers[j] == Settle(made[j].call, env.fetch(made[j], at[j]))
    {
      assert Served(env, log, made[j], answers[j], at[j]);
      if FromCache(log, made[j], answers[j], at[j]) {
        var i :| 0 <= i < |log| && Shares(log[i], made[j]) && answers[j] == Ok(log[i].value.data)
                 && log[i].storedAt <= at[j] <= log[i].value.expiresAt;
        assert Current(env, log[i], made[j], at[j]);
      }
    }
  }

  /** While what can be served is current, the cached run is the run that fetches every call at its
      own instant: same results, same error, same requests. */
  lemma CachedRunAgreesWithFetching(
      env: Env, log: seq<Stored>, gvk: string, data: Data, calls: seq<Call>, r: Report,
      answers: seq<Result<Entry>>, at: seq<int>, start: int, end: int)
    requires Accounts(log, env, gvk, data, calls, r, answers, at, start, end)
    requires ServableIsCurrent(env, log, r.progress.made)
    ensures r == FetchRun(env, gvk, data, calls, at)
  {
    ServedIsCurrent(env, log, r.progress.made, answers, at);
    AgreesWhenCurrent(env, gvk, data, calls, answers, at);
  }

  // ----- What the run itself stores -----

  predicate Ascending(ids: seq<nat>) {
    forall i, j | 0 <= i < j < |ids| :: ids[i] < ids[j]
  }

  /** Since `before`, this run has made one Store for each of the calls `ids`, in this order, each for
      the request that the call sent, and with the answer fetched at its instant. */
  ghost predicate OwnStores(before: seq<Stored>, own: seq<Stored>, made: map<nat, Request>, at: seq<int>,
                            ids: seq<nat>) {
    && |own| == |before| + |ids| && own[..|before|] == before && Ascending(ids)
    && forall j | 0 <= j < |ids| ::
         && ids[j] in made && ids[j] < |at|
         && own[|before| + j].request == made[ids[j]] && own[|before| + j].fetchedAt == at[ids[j]]
  }

  /** At most one Store, for this request, of what was fetched at this instant. */
  ghost predicate StoredFor(mine: seq<Stored>, request: Request, at: int) {
    |mine| <= 1 && (mine != [] ==> mine[0].request == request && mine[0].fetchedAt == at)
  }

  lemma NoStoreMore(before: seq<Stored>, own: seq<Stored>, made: map<nat, Request>, made': map<nat, Request>,
                    at: seq<int>, u: int, ids: seq<nat>)
    requires OwnStores(before, own, made, at, ids)
    requires forall i <- made :: i < |at| && i in made' && made'[i] == made[i]
    ensures OwnStores(before, own, made', at + [u], ids)
  {
  }

  lemma OneStoreMore(before: seq<Stored>, own: seq<Stored>, e: Stored, made: map<nat, Request>, at: seq<int>, u: int,
                     ids: seq<nat>)
    requires OwnStores(before, own, made, at + [u], ids) && forall j | 0 <= j < |ids| :: ids[j] < |at|
    requires |at| in made && e.request == made[|at|] && e.fetchedAt == u
    ensures OwnStores(before, own + [e], made, at + [u], ids + [|at|])
  {
    var own' := own + [e];
    assert own'[..|before|] == own[..|before|];
    assert forall k | 0 <= k < |own| :: own'[k] == own[k];
  }

  lemma OwnStoresMore(before: seq<Stored>, own: seq<Stored>, mine: seq<Stored>, made: map<nat, Request>,
                      made': map<nat, Request>, at: seq<int>, u: int, ids: seq<nat>)
    requires OwnStores(before, own, made, at, ids)
    requires forall i <- made :: i < |at| && i in made' && made'[i] == made[i]
    requires mine != [] ==> |at| in made' && StoredFor(mine, made'[|at|], u)
    ensures OwnStores(before, own + mine, made', at + [u], if mine == [] then ids else ids + [|at|])
  {
    NoStoreMore(before, own, made, made', at, u, ids);
    if mine == [] {
      assert own + mine == own;
    } else {
      assert forall j | 0 <= j < |ids| :: ids[j] in made;
      assert mine == [mine[0]];
      hide OwnStores;
      OneStoreMore(before, own, mine[0], made', at, u, ids);
    }
  }

  // ----- The runner -----

  /** The backend, whose settled answer is then cached. Other goroutines run at every point. */
  method FetchAndStore(env: Env, cache: Cache, request: Request)
    returns (entry: Result<Entry>, ghost at: int, ghost mine: seq<Stored>)
    requires Consistent(env, cache.Abs())
    modifies cache
    ensures Evolves(env, old(cache.Abs()), cache.Abs())
    ensures entry == Settle(request.call, env.fetch(request, at)) && old(cache.now) <= at <= cache.now
    ensures cache.own == old(cache.own) + mine && StoredFor(mine, request, at)
    ensures cache.alone ==> Answer(entry, cache.Abs()) == Fetched(env, old(cache.Abs()), request)
  {
    hide Evolves, Consistent, Put, Honest;
    var call := request.call;
    ghost var s0 := cache.Abs();
    at, mine := cache.now, [];
    var answer := env.fetch(request, cache.now);
    cache.Interfere(env);
    EvolvingKeepsConsistent(env, s0, cache.Abs());
    ghost var s1 := cache.Abs();
    if answer.Err? {
      if !call.continueOnError {
        return Err(answer.message), at, mine;
      }
      entry := Ok(ErrorResult(answer.message));
    } else {
      entry := answer;
    }
    if call.cacheFor != "" {
      var ttl := env.ttl(call.cacheFor);
      if ttl.Ok? {
        ghost var stored := cache.Set(env, request, entry.value, ttl.value, at);
        mine := [stored];
        EvolvesTransitive(env, s0, s1, cache.Abs());
      }
    }
  }

  lemma HitIsServed(log: seq<Stored>, request: Request, i: nat, at: int)
    requires i < |log| && Shares(log[i], request) && log[i].storedAt <= at <= log[i].value.expiresAt
    ensures FromCache(log, request, Ok(log[i].value.data), at)
  {
  }

  /** One prepared call: the cache if it declares cacheFor, else (or on a miss) the backend. */
  method Obtain(env: Env, cache: Cache, request: Request)
    returns (entry: Result<Entry>, ghost at: int, ghost mine: seq<Stored>)
    requires Consistent(env, cache.Abs())
    modifies cache
    ensures Evolves(env, old(cache.Abs()), cache.Abs())
    ensures Served(env, cache.log, request, entry, at) && old(cache.now) <= at <= cache.now
    ensures cache.own == old(cache.own) + mine && StoredFor(mine, request, at)
    ensures cache.alone ==> Answer(entry, cache.Abs()) == Obtained(env, old(cache.Abs()), request)
  {
    hide Evolves, Consistent, Fetched, AfterLookUp, LookUp, FromCache, Settle;
    var call := request.call;
    ghost var s0 := cache.Abs();
    EvolvesStays(env, s0);
    if call.cacheFor != "" {
      var key := CacheKey(request.gvk, call.name, request.url, request.query);
      var hit, checkedAt, source := cache.Get(env, key);
      EvolvingKeepsConsistent(env, s0, cache.Abs());
      if hit.Some? {
        HitDeletesNothing(s0, key);
        HitIsServed(cache.log, request, source, checkedAt);
        return Ok(hit.value), checkedAt, [];
      }
    }
    hide KeyOf, CacheKey, Shares;
    ghost var s1 := cache.Abs();
    cache.Interfere(env);
    EvolvesTransitive(env, s0, s1, cache.Abs());
    EvolvingKeepsConsistent(env, s0, cache.Abs());
    ghost var s2 := cache.Abs();
    entry, at, mine := FetchAndStore(env, cache, request);
    EvolvesTransitive(env, s0, s2, cache.Abs());
    EvolvingKeepsConsistent(env, s2, cache.Abs());
  }

  /** The four resolutions, each with its own early return. */
  method PrepareCall(env: Env, gvk: string, view: Data, i: nat, call: Call) returns (prepared: Prepared)
    requires env.holds(view, call)
    ensures prepared == Prepare(env, gvk, view, i, call)
  {
    var url := env.resolve(view, call.url);
    if url.Err? {
      return Abort(UrlError(i, url.message));
    }
    var query := env.resolve(view, call.query);
    if query.Err? {
      return Abort(QueryError(i, query.message));
    }
    var body := env.resolve(view, call.body);
    if body.Err? {
      return Abort(BodyError(i, body.message));
    }
    var credential := env.credential(call);
    if credential.Err? {
      return Abort(AuthError(i, call.name, credential.message));
    }
    return Ready(Request(gvk, call, url.value, query.value, body.value, credential.value));
  }

  ghost predicate Holding(out: Resolver, original: Resolver, results: ResultMap, p: Progress)
    reads results
  {
    && results.entries == p.results
    && out == if p.injected then Resolver(original.base, results) else original
  }

  /** Templates see exactly the view of the progress. */
  lemma HoldingShowsView(out: Resolver, original: Resolver, results: ResultMap, p: Progress)
    requires Holding(out, original, results, p)
    ensures DataOf(out) == View(DataOf(original), p)
  {
    if p.injected {
      var mine := Wrap(results.entries);
      assert View(DataOf(original), p) == DataOf(original)["external" := mine];
      assert DataOf(out) == original.base["external" := mine];
      assert DataOf(original)["external" := mine] == original.base["external" := mine];
    }
  }

  /** The part of the loop's body that follows the preparation of a call. */
  method RunPrepared(env: Env, cache: Cache, i: nat, request: Request,
                     ghost original: Resolver, resolver: Resolver, results: ResultMap, ghost p: Progress)
    returns (out: Resolver, err: Option<RunError>, ghost settled: Result<Entry>, ghost u: int, ghost mine: seq<Stored>)
    requires Consistent(env, cache.Abs())
    requires original.external != results && Holding(resolver, original, results, p)
    modifies cache, results
    ensures Evolves(env, old(cache.Abs()), cache.Abs())
    ensures err == Record(p, i, request, settled).err
    ensures Holding(out, original, results, Record(p, i, request, settled).progress)
    ensures Served(env, cache.log, request, settled, u) && old(cache.now) <= u <= cache.now
    ensures cache.own == old(cache.own) + mine && StoredFor(mine, request, u)
    ensures cache.alone ==> Answer(settled, cache.Abs()) == Obtained(env, old(cache.Abs()), request)
  {
    hide Evolves, Consistent, Obtained, Served, StoredFor;
    out, err := resolver, None;
    var call := request.call;
    var entry;
    entry, u, mine := Obtain(env, cache, request);
    settled := entry;
    if entry.Err? {
      err := Some(HardError(call.name, entry.message));
      return;
    }
    results.entries := results.entries[call.name := entry.value];
    assert call.name in results.entries;
    out := WithExternal(resolver, results);
    assert out == Resolver(original.base, results);
    var callErr := ErrorText(entry.value);
    if callErr != "" && !call.continueOnError {
      err := Some(CallFailed(call.name, callErr));
    }
  }

  /** The body of the loop over the calls. */
  method RunCall(env: Env, cache: Cache, gvk: string, i: nat, call: Call,
                 ghost original: Resolver, resolver: Resolver, results: ResultMap, ghost data: Data, ghost p: Progress)
    returns (out: Resolver, err: Option<RunError>, ghost settled: Result<Entry>, ghost u: int, ghost mine: seq<Stored>)
    requires Consistent(env, cache.Abs())
    requires original.external != results && Holding(resolver, original, results, p)
    requires data == DataOf(original) && i !in p.made
    modifies cache, results
    ensures Evolves(env, old(cache.Abs()), cache.Abs())
    ensures err == AnsweredStep(env, gvk, data, p, i, call, settled).err
    ensures Holding(out, original, results, AnsweredStep(env, gvk, data, p, i, call, settled).progress)
    ensures var made := AnsweredStep(env, gvk, data, p, i, call, settled).progress.made;
            if i in made then
              && Served(env, cache.log, made[i], settled, u) && old(cache.now) <= u <= cache.now
              && StoredFor(mine, made[i], u)
            else mine == []
    ensures cache.own == old(cache.own) + mine
    ensures cache.alone ==>
              Outcome(AnsweredStep(env, gvk, data, p, i, call, settled), cache.Abs())
              == CachedStep(env, gvk, data, old(cache.Abs()), p, i, call)
  {
    hide Evolves, Consistent, Obtained, Served, StoredFor, Record;
    out, err, settled, u, mine := resolver, None, Err(""), 0, [];
    EvolvesStays(env, cache.Abs());
    HoldingShowsView(resolver, original, results, p);
    if !env.holds(DataOf(resolver), call) {
      assert Prepare(env, gvk, View(data, p), i, call) == Skip;
      results.entries := results.entries[call.name := SkippedResult(call.protocol)];
      return;
    }
    var prepared := PrepareCall(env, gvk, DataOf(resolver), i, call);
    assert prepared == Prepare(env, gvk, View(data, p), i, call);
    if prepared.Abort? {
      err := Some(prepared.err);
      return;
    }
    var request := prepared.request;
    hide Prepare, Holding;
    out, err, settled, u, mine := RunPrepared(env, cache, i, request, original, resolver, results, p);
    assert AnsweredStep(env, gvk, data, p, i, call, settled) == Record(p, i, request, settled);
    RecordMakes(p, i, request, settled);
  }

  lemma RecordMakes(p: Progress, i: nat, request: Request, settled: Result<Entry>)
    ensures Record(p, i, request, settled).progress.made == p.made[i := request]
  {
  }

  method Run(env: Env, cache: Cache, gvk: string, resolver: Resolver, calls: seq<Call>)
    returns (out: Resolver, err: Option<RunError>,
             ghost r: Report, ghost answers: seq<Result<Entry>>, ghost at: seq<int>, ghost ids: seq<nat>)
    requires Consistent(env, cache.Abs())
    modifies cache
    // The cache is only changed by legal steps, so it stays consistent for everybody else.
    ensures Evolves(env, old(cache.Abs()), cache.Abs()) && Consistent(env, cache.Abs())
    // This run stores at most one answer for each call it reports as requested, in order.
    ensures OwnStores(old(cache.own), cache.own, r.progress.made, at, ids)
    // Data and error are those of a run whose answers are each fetched or come from the cache.
    ensures Accounts(cache.log, env, gvk, old(DataOf(resolver)), calls, r, answers, at, old(cache.now), cache.now)
    ensures err == r.err && DataOf(out) == View(old(DataOf(resolver)), r.progress)
    // That is the run that fetches every call at its own instant exactly when those answers are
    // current, and so whenever what can be served is.
    ensures |answers| == |at| == |calls|
    ensures DistinctNames(calls) ==>
              (r == FetchRun(env, gvk, old(DataOf(resolver)), calls, at)
               <==> AllCurrent(env, r.progress.made, answers, at))
    ensures ServableIsCurrent(env, cache.log, r.progress.made) ==>
              r == FetchRun(env, gvk, old(DataOf(resolver)), calls, at)
    // Undisturbed, report and cache are those of the run as a function of the cache.
    ensures cache.alone ==>
              Outcome(r, cache.Abs()) == CachedRun(env, gvk, old(DataOf(resolver)), old(cache.Abs()), calls)
    // The resolver passed in is unchanged.
    ensures DataOf(resolver) == old(DataOf(resolver))
  {
    hide *;
    ghost var u := UnderWay(env, gvk, DataOf(resolver), cache.Abs(), cache.own, cache.alone, calls);
    AtTheStart(u);
    ghost var k := 0;
    cache.AbsIs();
    if |calls| == 0 {
      out, err, r, answers, at, ids := resolver, None, Report(START, None), [], [], [];
      NothingInjected(u.data);
    } else {
      out, err, k, r, answers, at, ids := RunCalls(env, cache, gvk, resolver, calls);
    }
    cache.AbsIs();
    AtTheEnd(u, k, cache.Abs(), cache.own, r, answers, at, ids);
    answers, at := Pad(answers, |calls|, Err("")), Pad(at, |calls|, 0);
    AccountsAgree(cache.log, env, gvk, u.data, calls, r, answers, at, u.s0.now, cache.now);
  }

  lemma NothingInjected(data: Data)
    ensures View(data, START) == data
  {
  }

  /** The loop over the calls, up to its end or to the call that stops it. */
  method RunCalls(env: Env, cache: Cache, gvk: string, resolver: Resolver, calls: seq<Call>)
    returns (out: Resolver, err: Option<RunError>, ghost k: nat,
             ghost r: Report, ghost answers: seq<Result<Entry>>, ghost at: seq<int>, ghost ids: seq<nat>)
    requires Consistent(env, cache.Abs())
    modifies cache
    ensures DataOf(resolver) == old(DataOf(resolver))
    ensures err == r.err && DataOf(out) == View(old(DataOf(resolver)), r.progress) && (k == |calls| || r.err.Some?)
    ensures After(UnderWay(env, gvk, old(DataOf(resolver)), old(cache.Abs()), old(cache.own), cache.alone, calls), k,
                  cache.Abs(), cache.own, r, answers, at, ids)
  {
    hide *;
    ghost var u := UnderWay(env, gvk, DataOf(resolver), cache.Abs(), cache.own, cache.alone, calls);
    out, err, r, answers, at, ids := resolver, None, Report(START, None), [], [], [];
    AtTheStart(u);
    var results := new ResultMap();
    HoldingAtTheStart(resolver, results);
    var i := 0;
    while i < |calls|
      invariant 0 <= i <= |calls| && err == r.err == None
      invariant fresh(results) && u.data == DataOf(resolver) && Holding(out, resolver, results, r.progress)
      invariant After(u, i, cache.Abs(), cache.own, r, answers, at, ids)
    {
      out, err, r, answers, at, ids :=
        NextCallOf(u, env, cache, gvk, i, calls[i], resolver, out, results, r, answers, at, ids);
      i := i + 1;
      if err.Some? {
        break;
      }
    }
    HoldingShowsView(out, resolver, results, r.progress);
    k := i;
  }

  /** Call i of a run under way. */
  method NextCallOf(ghost u: UnderWay, env: Env, cache: Cache, gvk: string, i: nat, call: Call,
                    ghost original: Resolver, resolver: Resolver, results: ResultMap,
                    ghost r0: Report, ghost answers0: seq<Result<Entry>>, ghost at0: seq<int>, ghost ids0: seq<nat>)
    returns (out: Resolver, err: Option<RunError>,
             ghost r: Report, ghost answers: seq<Result<Entry>>, ghost at: seq<int>, ghost ids: seq<nat>)
    requires env == u.env && gvk == u.gvk && i < |u.calls| && call == u.calls[i] && u.alone == cache.alone
    requires original.external != results && u.data == DataOf(original) && r0.err.None?
    requires Holding(resolver, original, results, r0.progress)
    requires After(u, i, cache.Abs(), cache.own, r0, answers0, at0, ids0)
    modifies cache, results
    ensures err == r.err && Holding(out, original, results, r.progress)
    ensures After(u, i + 1, cache.Abs(), cache.own, r, answers, at, ids)
  {
    hide *;
    ghost var s1, own1, p := cache.Abs(), cache.own, r0.progress;
    ghost var settled, t, mine;
    assert r0 == Report(p, None);
    cache.AbsIs();
    ReadyForCall(u, i, s1, own1, r0, answers0, at0, ids0);
    out, err, settled, t, mine := RunCall(env, cache, gvk, i, call, original, resolver, results, u.data, p);
    r := AnsweredStep(u.env, u.gvk, u.data, p, i, u.calls[i], settled);
    cache.AbsIs();
    AfterCall(u, i, s1, own1, cache.Abs(), mine, p, answers0, at0, ids0, settled, t);
    answers, at, ids := answers0 + [settled], at0 + [t], if mine == [] then ids0 else ids0 + [i];
  }

  lemma HoldingAtTheStart(resolver: Resolver, results: ResultMap)
    requires results.entries == map[]
    ensures Holding(resolver, resolver, results, START)
  {
  }

  // ----- The loop of Run, on values -----

  /** A run of these calls, begun in state s0 when this goroutine had made the Stores own0. */
  datatype UnderWay = UnderWay(env: Env, gvk: string, data: Data, s0: State, own0: seq<Stored>, alone: bool,
                               calls: seq<Call>)

  /** What holds of the run after k calls, the last of which may have stopped it. */
  ghost predicate After(u: UnderWay, k: nat, s: State, own: seq<Stored>, r: Report,
                        answers: seq<Result<Entry>>, at: seq<int>, ids: seq<nat>) {
    && k <= |u.calls| && |answers| == |at| == k
    && Evolves(u.env, u.s0, s) && Consistent(u.env, s) && u.s0.now <= s.now
    && Accounts(s.log, u.env, u.gvk, u.data, u.calls[..k], r, answers, at, u.s0.now, s.now)
    && OwnStores(u.own0, own, r.progress.made, at, ids)
    && (u.alone ==> Outcome(r, s) == CachedRun(u.env, u.gvk, u.data, u.s0, u.calls[..k]))
  }

  lemma AccountForNothing(log: seq<Stored>, env: Env, gvk: string, data: Data, calls: seq<Call>, now: int)
    ensures Accounts(log, env, gvk, data, calls[..0], Report(START, None), [], [], now, now)
  {
  }

  lemma AtTheStart(u: UnderWay)
    requires Consistent(u.env, u.s0)
    ensures After(u, 0, u.s0, u.own0, Report(START, None), [], [], [])
  {
    hide Consistent, Evolves;
    EvolvesStays(u.env, u.s0);
    AccountForNothing(u.s0.log, u.env, u.gvk, u.data, u.calls, u.s0.now);
  }

  lemma ReadyForCall(u: UnderWay, k: nat, s: State, own: seq<Stored>, r: Report,
                     answers: seq<Result<Entry>>, at: seq<int>, ids: seq<nat>)
    requires After(u, k, s, own, r, answers, at, ids) && k < |u.calls|
    ensures Consistent(u.env, s) && k !in r.progress.made
  {
    hide Consistent, Evolves, OwnStores, CachedRun, AllServed, During;
    AnsweredRunStaysInList(u.env, u.gvk, u.data, u.calls[..k], answers);
  }

  lemma ServedLater(env: Env, log: seq<Stored>, log': seq<Stored>, request: Request, answer: Result<Entry>, at: int)
    requires log <= log' && Served(env, log, request, answer, at)
    ensures Served(env, log', request, answer, at)
  {
    hide Shares, Settle;
    if FromCache(log, request, answer, at) {
      var i :| 0 <= i < |log| && Shares(log[i], request) && answer == Ok(log[i].value.data)
               && log[i].storedAt <= at <= log[i].value.expiresAt;
      assert log'[i] == log[i];
    }
  }

  lemma NextAnswer(env: Env, gvk: string, data: Data, calls: seq<Call>, k: nat, answers: seq<Result<Entry>>,
                   settled: Result<Entry>)
    requires k < |calls| && |answers| == k && AnsweredRun(env, gvk, data, calls[..k], answers).err.None?
    ensures AnsweredRun(env, gvk, data, calls[..k + 1], answers + [settled])
         == AnsweredStep(env, gvk, data, AnsweredRun(env, gvk, data, calls[..k], answers).progress, k, calls[k],
                         settled)
  {
    assert calls[..k + 1][..k] == calls[..k] && (answers + [settled])[..k] == answers;
    OneMoreAnswer(env, gvk, data, calls[..k + 1], answers + [settled]);
  }

  /** The accounts after one more call, made with a longer log at a later time. */
  lemma AccountForCall(log: seq<Stored>, log': seq<Stored>, env: Env, gvk: string, data: Data, calls: seq<Call>,
                       p: Progress, answers: seq<Result<Entry>>, at: seq<int>, start: int, end: int, end': int,
                       settled: Result<Entry>, t: int)
    requires log <= log' && end <= end' && |at| < |calls| && |at| !in p.made
    requires Accounts(log, env, gvk, data, calls[..|at|], Report(p, None), answers, at, start, end)
    requires var made := AnsweredStep(env, gvk, data, p, |at|, calls[|at|], settled).progress.made;
             |at| in made ==> Served(env, log', made[|at|], settled, t) && start <= t <= end'
    ensures Accounts(log', env, gvk, data, calls[..|at| + 1],
                     AnsweredStep(env, gvk, data, p, |at|, calls[|at|], settled),
                     answers + [settled], at + [t], start, end')
  {
    hide Served, AnsweredStep;
    var n := |at|;
    var made := AnsweredStep(env, gvk, data, p, n, calls[n], settled).progress.made;
    NextAnswer(env, gvk, data, calls, n, answers, settled);
    AnsweredStepFrame(env, gvk, data, p, n, calls[n], settled);
    forall i | i in made
      ensures i < n + 1 && Served(env, log', made[i], (answers + [settled])[i], (at + [t])[i])
      ensures start <= (at + [t])[i] <= end'
    {
      if i != n {
        assert i in p.made && made[i] == p.made[i];
        ServedLater(env, log, log', p.made[i], answers[i], at[i]);
      }
    }
  }

  lemma AfterCall(u: UnderWay, k: nat, s: State, own: seq<Stored>, s': State, mine: seq<Stored>, p: Progress,
                  answers: seq<Result<Entry>>, at: seq<int>, ids: seq<nat>, settled: Result<Entry>, t: int)
    requires After(u, k, s, own, Report(p, None), answers, at, ids)
    requires k < |u.calls| && k !in p.made && Evolves(u.env, s, s')
    requires var made := AnsweredStep(u.env, u.gvk, u.data, p, k, u.calls[k], settled).progress.made;
             if k in made then
               Served(u.env, s'.log, made[k], settled, t) && s.now <= t <= s'.now && StoredFor(mine, made[k], t)
             else mine == []
    requires u.alone ==>
               Outcome(AnsweredStep(u.env, u.gvk, u.data, p, k, u.calls[k], settled), s')
               == CachedStep(u.env, u.gvk, u.data, s, p, k, u.calls[k])
    ensures After(u, k + 1, s', own + mine, AnsweredStep(u.env, u.gvk, u.data, p, k, u.calls[k], settled),
                  answers + [settled], at + [t], if mine == [] then ids else ids + [k])
  {
    var made := AnsweredStep(u.env, u.gvk, u.data, p, k, u.calls[k], settled).progress.made;
    hide Consistent, Evolves, Accounts, OwnStores, CachedRun, CachedStep, AnsweredStep, Served, StoredFor;
    EvolvesTransitive(u.env, u.s0, s, s');
    EvolvingKeepsConsistent(u.env, s, s');
    AccountForCall(s.log, s'.log, u.env, u.gvk, u.data, u.calls, p, answers, at, u.s0.now, s.now, s'.now, settled, t);
    AnsweredStepFrame(u.env, u.gvk, u.data, p, k, u.calls[k], settled);
    MadeInTime(s.log, u.env, u.gvk, u.data, u.calls[..k], Report(p, None), answers, at, u.s0.now, s.now);
    OwnStoresMore(u.own0, own, mine, p.made, made, at, t, ids);
    if u.alone { OneMoreCall(u.env, u.gvk, u.data, u.s0, u.calls, k); }
  }

  lemma MadeInTime(log: seq<Stored>, env: Env, gvk: string, data: Data, calls: seq<Call>, r: Report,
                   answers: seq<Result<Entry>>, at: seq<int>, start: int, end: int)
    requires Accounts(log, env, gvk, data, calls, r, answers, at, start, end)
    ensures forall i <- r.progress.made :: i < |at|
  {
    hide AnsweredRun;
  }

  function Pad<T>(s: seq<T>, n: nat, last: T): (r: seq<T>)
    requires |s| <= n
    ensures |r| == n && r[..|s|] == s
  {
    s + seq(n - |s|, _ => last)
  }

  /** The accounts of a run that stopped at its last call, for the whole list. */
  lemma AccountForTheRest(log: seq<Stored>, env: Env, gvk: string, data: Data, calls: seq<Call>, k: nat, r: Report,
                          answers: seq<Result<Entry>>, at: seq<int>, start: int, end: int)
    requires k <= |calls| && r.err.Some?
    requires Accounts(log, env, gvk, data, calls[..k], r, answers, at, start, end)
    ensures Accounts(log, env, gvk, data, calls, r, Pad(answers, |calls|, Err("")), Pad(at, |calls|, 0), start, end)
  {
    hide Served, Pad;
    StoppedAnsweredRun(env, gvk, data, calls, Pad(answers, |calls|, Err("")), k);
    var answers', at' := Pad(answers, |calls|, Err("")), Pad(at, |calls|, 0);
    var made := r.progress.made;
    forall i | i in made ensures i < |at'| && Served(env, log, made[i], answers'[i], at'[i]) && start <= at'[i] <= end {
      assert Served(env, log, made[i], answers[i], at[i]);
      assert answers'[i] == answers'[..k][i] && at'[i] == at'[..k][i];
    }
  }

  lemma OwnStoresLater(before: seq<Stored>, own: seq<Stored>, made: map<nat, Request>, at: seq<int>, at': seq<int>,
                       ids: seq<nat>)
    requires OwnStores(before, own, made, at, ids) && at <= at'
    ensures OwnStores(before, own, made, at', ids)
  {
  }

  /** What Run promises of its report, from its accounts alone. */
  lemma AccountsAgree(log: seq<Stored>, env: Env, gvk: string, data: Data, calls: seq<Call>, r: Report,
                      answers: seq<Result<Entry>>, at: seq<int>, start: int, end: int)
    requires Accounts(log, env, gvk, data, calls, r, answers, at, start, end)
    ensures |answers| == |at| == |calls|
    ensures DistinctNames(calls) ==>
              (r == FetchRun(env, gvk, data, calls, at) <==> AllCurrent(env, r.progress.made, answers, at))
    ensures ServableIsCurrent(env, log, r.progress.made) ==> r == FetchRun(env, gvk, data, calls, at)
  {
    hide DistinctNames, ServableIsCurrent, AllCurrent, FetchRun, AnsweredRun, AllServed, During;
    if DistinctNames(calls) {
      AgreesIffCurrent(env, gvk, data, calls, answers, at);
    }
    if ServableIsCurrent(env, log, r.progress.made) {
      CachedRunAgreesWithFetching(env, log, gvk, data, calls, r, answers, at, start, end);
    }
  }

  /** A run that is through the list, or was stopped, is the run of the whole list. */
  lemma AtTheEnd(u: UnderWay, k: nat, s: State, own: seq<Stored>, r: Report,
                 answers: seq<Result<Entry>>, at: seq<int>, ids: seq<nat>)
    requires After(u, k, s, own, r, answers, at, ids)
    requires k == |u.calls| || r.err.Some?
    ensures Evolves(u.env, u.s0, s) && Consistent(u.env, s)
    ensures |answers| == |at| == k <= |u.calls|
    ensures OwnStores(u.own0, own, r.progress.made, Pad(at, |u.calls|, 0), ids)
    ensures Accounts(s.log, u.env, u.gvk, u.data, u.calls, r, Pad(answers, |u.calls|, Err("")), Pad(at, |u.calls|, 0),
                     u.s0.now, s.now)
    ensures u.alone ==> Outcome(r, s) == CachedRun(u.env, u.gvk, u.data, u.s0, u.calls)
  {
    hide Evolves, OwnStores, CachedRun, Consistent, Accounts;
    var n := |u.calls|;
    assert Pad(at, n, 0)[..k] == at;
    OwnStoresLater(u.own0, own, r.progress.made, at, Pad(at, n, 0), ids);
    if r.err.Some? {
      AccountForTheRest(s.log, u.env, u.gvk, u.data, u.calls, k, r, answers, at, u.s0.now, s.now);
      if u.alone { StoppedCachedRun(u.env, u.gvk, u.data, u.s0, u.calls, k); }
    } else {
      assert u.calls[..k] == u.calls && Pad(answers, n, Err("")) == answers && Pad(at, n, 0) == at;
    }
  }
}
