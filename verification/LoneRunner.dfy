/** The cached run when nobody else touches the cache and no time passes, as a function of the
    cache it starts from: what the runner computes then, and when a cached answer is not the
    answer a fetch would give. */
module LoneRunner {
  import opened Common
  import opened Values
  import opened ExternalCalls
  import opened ResultCache

  datatype Answer = Answer(entry: Result<Entry>, state: State)
  datatype Outcome = Outcome(report: Report, state: State)

  /** The backend's settled answer, which is then stored if the call declares a usable cacheFor. */
  function Fetched(env: Env, s: State, request: Request): Answer {
    var call := request.call;
    var settled := Settle(call, env.fetch(request, s.now));
    if settled.Err? || call.cacheFor == "" || env.ttl(call.cacheFor).Err? then Answer(settled, s)
    else
      var value := Cached(settled.value, s.now + env.ttl(call.cacheFor).value);
      Answer(settled, Put(s, Stored(request, s.now, s.now, s.now, value)))
  }

  /** The cache if the call declares cacheFor, else (or on a miss) the backend. */
  function Obtained(env: Env, s: State, request: Request): Answer {
    var hit := if request.call.cacheFor == "" then None else LookUp(s, KeyOf(request));
    if hit.Some? then Answer(Ok(hit.value), s)
    else Fetched(env, if request.call.cacheFor == "" then s else AfterLookUp(s, KeyOf(request)), request)
  }

  function CachedStep(env: Env, gvk: string, data: Data, s: State, p: Progress, i: nat, call: Call): Outcome {
    match Prepare(env, gvk, View(data, p), i, call)
    case Skip => Outcome(Report(p.(results := p.results[call.name := SkippedResult(call.protocol)]), None), s)
    case Abort(e) => Outcome(Report(p, Some(e)), s)
    case Ready(request) =>
      var answer := Obtained(env, s, request);
      Outcome(Record(p, i, request, answer.entry), answer.state)
  }

  function CachedRun(env: Env, gvk: string, data: Data, s: State, calls: seq<Call>): Outcome {
    if calls == [] then Outcome(Report(START, None), s)
    else
      var n := |calls| - 1;
      var before := CachedRun(env, gvk, data, s, calls[..n]);
      if before.report.err.Some? then before
      else CachedStep(env, gvk, data, before.state, before.report.progress, n, calls[n])
  }

  /** What a stop leaves in the cache and in the report is what the whole list leaves. */
  lemma {:induction false} StoppedCachedRun(env: Env, gvk: string, data: Data, s: State, calls: seq<Call>, k: nat)
    requires k <= |calls| && CachedRun(env, gvk, data, s, calls[..k]).report.err.Some?
    ensures CachedRun(env, gvk, data, s, calls) == CachedRun(env, gvk, data, s, calls[..k])
  {
    hide CachedStep;
    if k == |calls| {
      assert calls[..k] == calls;
    } else {
      var n := |calls| - 1;
      assert calls[..n][..k] == calls[..k];
      StoppedCachedRun(env, gvk, data, s, calls[..n], k);
    }
  }

  lemma OneMoreCall(env: Env, gvk: string, data: Data, s: State, calls: seq<Call>, i: nat)
    requires i < |calls| && CachedRun(env, gvk, data, s, calls[..i]).report.err.None?
    ensures CachedRun(env, gvk, data, s, calls[..i + 1])
         == CachedStep(env, gvk, data, CachedRun(env, gvk, data, s, calls[..i]).state,
                       CachedRun(env, gvk, data, s, calls[..i]).report.progress, i, calls[i])
  {
    assert calls[..i + 1][..i] == calls[..i];
  }

  // ----- When a stored answer is the current one -----

  /** At instant t a fetch for request q would leave the entry that was stored. */
  ghost predicate Current(env: Env, e: Stored, q: Request, t: int) {
    Settle(q.call, env.fetch(q, t)) == Ok(e.value.data)
  }

  /** A lookup for q finds what was stored. */
  predicate Shares(e: Stored, q: Request) { q.call.cacheFor != "" && KeyOf(q) == KeyOf(e.request) }

  /** A state other goroutines can bring about, in which the stored answer can be served. */
  ghost predicate CanServe(env: Env, s: State, e: Stored, t: int) {
    && Consistent(env, s) && s.now == t
    && KeyOf(e.request) in s.entries && s.entries[KeyOf(e.request)] == e.value
  }

  lemma OneCall(env: Env, gvk: string, data: Data, s: State, call: Call, t: int)
    ensures CachedRun(env, gvk, data, s, [call]) == CachedStep(env, gvk, data, s, START, 0, call)
    ensures FetchRun(env, gvk, data, [call], [t]) == Step(env, gvk, data, START, 0, call, t)
  {
    assert [call][..0] == [] && [t][..0] == [];
  }

  /** The answer of a hit, against that of a fetch at the same instant. */
  lemma HitAgreesIff(env: Env, e: Stored, q: Request, gvk: string, data: Data, s: State, t: int)
    requires t <= e.value.expiresAt && CanServe(env, s, e, t) && Shares(e, q)
    requires Prepare(env, gvk, data, 0, q.call) == Ready(q)
    ensures CachedRun(env, gvk, data, s, [q.call]).report == FetchRun(env, gvk, data, [q.call], [t])
       <==> Current(env, e, q, t)
  {
    OneCall(env, gvk, data, s, q.call, t);
    assert View(data, START) == data;
    assert Obtained(env, s, q) == Answer(Ok(e.value.data), s);
    hide Obtained, Prepare, Consistent, Settle, KeyOf;
    var settled := Settle(q.call, env.fetch(q, t));
    if Record(START, 0, q, settled) == Record(START, 0, q, Ok(e.value.data)) {
      var cached := Record(START, 0, q, Ok(e.value.data)).progress;
      assert q.call.name in cached.results && cached.results[q.call.name] == e.value.data;
    }
  }

  /** The cache some time after a first Store. */
  function LaterHolding(e: Stored, t: int): State { Holding(e).(now := t) }

  lemma LaterHoldingCanServe(env: Env, e: Stored, t: int)
    requires Honest(env, e) && e.storedAt <= t
    ensures CanServe(env, LaterHolding(e, t), e, t)
    ensures Evolves(env, Empty(e.storedAt), LaterHolding(e, t))
  {
    var empty, held, later := Empty(e.storedAt), Holding(e), LaterHolding(e, t);
    HoldingIsReachable(env, e);
    assert Next(env, held, later);
    hide Next, Consistent, Honest;
    StepKeepsConsistent(env, held, later);
    EvolvesByStep(env, empty, held);
    EvolvesByStep(env, held, later);
    EvolvesTransitive(env, empty, held, later);
  }

  /** Exactly when a stored answer is safe to serve to a request with its key, at an instant at
      which it can be served. If a fetch for the request would answer otherwise at t, the cache
      reached by that one Store and the passing of time serves the stale (or foreign) answer, and
      the run reports something else than the fetching run. */
  lemma ServingIsSafeIff(env: Env, e: Stored, q: Request, gvk: string, data: Data, t: int)
    requires Honest(env, e) && e.storedAt <= t <= e.value.expiresAt && Shares(e, q)
    requires Prepare(env, gvk, data, 0, q.call) == Ready(q)
    ensures Current(env, e, q, t)
       <==> forall s | CanServe(env, s, e, t) ::
              CachedRun(env, gvk, data, s, [q.call]).report == FetchRun(env, gvk, data, [q.call], [t])
    ensures !Current(env, e, q, t) ==>
              && LookUp(LaterHolding(e, t), KeyOf(q)) == Some(e.value.data)
              && CanServe(env, LaterHolding(e, t), e, t)
              && Evolves(env, Empty(e.storedAt), LaterHolding(e, t))
              && CachedRun(env, gvk, data, LaterHolding(e, t), [q.call]).report
                 != FetchRun(env, gvk, data, [q.call], [t])
  {
    LaterHoldingCanServe(env, e, t);
    assert LookUp(LaterHolding(e, t), KeyOf(q)) == Some(e.value.data);
    HitAgreesIff(env, e, q, gvk, data, LaterHolding(e, t), t);
    hide *;
    forall s | CanServe(env, s, e, t)
      ensures CachedRun(env, gvk, data, s, [q.call]).report == FetchRun(env, gvk, data, [q.call], [t])
         <==> Current(env, e, q, t)
    {
      HitAgreesIff(env, e, q, gvk, data, s, t);
    }
  }

  /** Steadiness for cacheFor from the fetch is not enough: expiry is counted from after it. An
      answer fetched at 0, cached at 5 for 10, is still served at 15, when the backend has long
      changed it. */
  lemma CacheForIsNotTheWindow(call: Call, data: Data)
    requires call.cacheFor != ""
    ensures exists env: Env, e: Stored, ttl: int, t: int ::
              && e.request.call == call && Honest(env, e) && env.ttl(call.cacheFor) == Ok(ttl)
              && (forall u | e.fetchedAt <= u <= e.fetchedAt + ttl :: Current(env, e, e.request, u))
              && CanServe(env, LaterHolding(e, t), e, t)
              && CachedRun(env, e.request.gvk, data, LaterHolding(e, t), [call]).report
                 != FetchRun(env, e.request.gvk, data, [call], [t])
  {
    var env, e := ChangingBackend(call);
    assert Shares(e, e.request);
    hide *;
    ServingIsSafeIff(env, e, e.request, "", data, 15);
  }

  /** The backend changes its answer after 10; the answer fetched at 0 is stored at 5. */
  lemma ChangingBackend(call: Call) returns (env: Env, e: Stored)
    requires call.cacheFor != ""
    ensures e.request.gvk == "" && e.request.call == call
    ensures e.fetchedAt == 0 && e.storedAt == 5 && e.value.expiresAt == 15
    ensures forall data :: Prepare(env, "", data, 0, call) == Ready(e.request)
    ensures Honest(env, e) && env.ttl(call.cacheFor) == Ok(10)
    ensures (forall u | 0 <= u <= 10 :: Current(env, e, e.request, u)) && !Current(env, e, e.request, 15)
  {
    var before: Entry, after: Entry := map["body" := Str("before")], map["body" := Str("after")];
    assert before["body"] != after["body"];
    var fetch := (r: Request, t: int) => if t <= 10 then Ok(before) else Ok(after);
    e := Stored(Request("", call, call.url, call.query, call.body, ""), 0, 5, 5, Cached(before, 15));
    env := Env((d, c) => true, (d, s) => Ok(s), c => Ok(""), fetch, s => Ok(10));
  }

  // ----- What a run leaves in the cache, and for how long -----

  /** A cache that has nothing to serve under the key: no entry, or one that has expired. */
  predicate Misses(s: State, key: string) { key !in s.entries || s.entries[key].expiresAt < s.now }

  lemma StepAnswers(env: Env, gvk: string, data: Data, s: State, q: Request)
    requires Prepare(env, gvk, data, 0, q.call) == Ready(q)
    ensures CachedRun(env, gvk, data, s, [q.call])
         == Outcome(Record(START, 0, q, Obtained(env, s, q).entry), Obtained(env, s, q).state)
    ensures FetchRun(env, gvk, data, [q.call], [s.now]).progress.made == map[0 := q]
    ensures FetchRun(env, gvk, data, [q.call], [s.now]) == Record(START, 0, q, Settle(q.call, env.fetch(q, s.now)))
  {
    OneCall(env, gvk, data, s, q.call, s.now);
    assert View(data, START) == data;
    hide Obtained, Prepare, Settle;
  }

  /** The one Store of a run of one call that misses. */
  function FreshStore(q: Request, entry: Entry, now: int, ttl: int): Stored {
    Stored(q, now, now, now, Cached(entry, now + ttl))
  }

  /** A cached call that misses is fetched, and its answer stored: under its key, for its cacheFor, and
      nothing else changes. */
  lemma MissIsFetchedAndStored(env: Env, gvk: string, data: Data, s: State, q: Request, entry: Entry, ttl: int)
    requires Prepare(env, gvk, data, 0, q.call) == Ready(q) && Misses(s, KeyOf(q))
    requires q.call.cacheFor != "" && env.ttl(q.call.cacheFor) == Ok(ttl)
    requires Settle(q.call, env.fetch(q, s.now)) == Ok(entry)
    ensures CachedRun(env, gvk, data, s, [q.call]).report == FetchRun(env, gvk, data, [q.call], [s.now])
    ensures var after := CachedRun(env, gvk, data, s, [q.call]).state;
            && after.now == s.now && after.log == s.log + [FreshStore(q, entry, s.now, ttl)]
            && KeyOf(q) in after.entries && after.entries[KeyOf(q)] == Cached(entry, s.now + ttl)
            && after.entries - {KeyOf(q)} == s.entries - {KeyOf(q)}
  {
    StepAnswers(env, gvk, data, s, q);
    hide Prepare, KeyOf, CachedRun, FetchRun, Record, Settle;
  }

  /** That answer is what every run of the call is given up to its expiry, that instant included, and
      no run after it. */
  lemma StoredAnswerIsServedUntilExpiry(
      env: Env, gvk: string, data: Data, s: State, q: Request, entry: Entry, ttl: int, t: int)
    requires Prepare(env, gvk, data, 0, q.call) == Ready(q) && Misses(s, KeyOf(q))
    requires q.call.cacheFor != "" && env.ttl(q.call.cacheFor) == Ok(ttl)
    requires Settle(q.call, env.fetch(q, s.now)) == Ok(entry) && s.now <= t
    ensures var later := CachedRun(env, gvk, data, s, [q.call]).state.(now := t);
            if t <= s.now + ttl then
              CachedRun(env, gvk, data, later, [q.call]) == Outcome(Record(START, 0, q, Ok(entry)), later)
            else
              CachedRun(env, gvk, data, later, [q.call]).report == FetchRun(env, gvk, data, [q.call], [t])
  {
    MissIsFetchedAndStored(env, gvk, data, s, q, entry, ttl);
    var later := CachedRun(env, gvk, data, s, [q.call]).state.(now := t);
    StepAnswers(env, gvk, data, later, q);
    hide Prepare, KeyOf, CachedRun, FetchRun, Record, Settle;
  }

  /** What is not stored: the answer of a call without cacheFor or with one that is no duration, and an
      error that stops the run. A call without cacheFor does not look at the cache either. */
  lemma NothingIsStored(env: Env, gvk: string, data: Data, s: State, q: Request)
    requires Prepare(env, gvk, data, 0, q.call) == Ready(q)
    requires || q.call.cacheFor == ""
             || (Misses(s, KeyOf(q)) && (env.ttl(q.call.cacheFor).Err? || Settle(q.call, env.fetch(q, s.now)).Err?))
    ensures CachedRun(env, gvk, data, s, [q.call]).report == FetchRun(env, gvk, data, [q.call], [s.now])
    ensures var after := CachedRun(env, gvk, data, s, [q.call]).state;
            && after.now == s.now && after.log == s.log
            && after.entries == if q.call.cacheFor == "" then s.entries else s.entries - {KeyOf(q)}
  {
    StepAnswers(env, gvk, data, s, q);
    hide Prepare, KeyOf, CachedRun, FetchRun, Record, Settle;
    if KeyOf(q) !in s.entries { assert s.entries - {KeyOf(q)} == s.entries; }
  }

  // ----- A wrong hit -----

  /** One template stands for a text of the data, and the backend answers with the body it was sent. */
  function EchoBackend(template: string): Env {
    Env((d, c) => true, (d: Data, s: string) => Ok(Echo(template, d, s)), c => Ok(""),
        (r: Request, t) => Ok(map["body" := Str(r.body)]), s => Ok(10))
  }

  function Echo(template: string, d: Data, s: string): string {
    if s == template && s in d && d[s].Str? then d[s].text else s
  }

  function EchoRequest(call: Call, body: string): Request { Request("", call, call.url, call.query, body, "") }

  lemma EchoPrepares(call: Call, body: string)
    requires call.body != call.url && call.body != call.query
    ensures Prepare(EchoBackend(call.body), "", map[call.body := Str(body)], 0, call) == Ready(EchoRequest(call, body))
  {
    var data: Data := map[call.body := Str(body)];
    assert data[call.body] == Str(body);
    assert Echo(call.body, data, call.url) == call.url && Echo(call.body, data, call.query) == call.query;
    hide *;
    EchoResolves(call.body, data, call.url);
    EchoResolves(call.body, data, call.query);
    EchoResolves(call.body, data, call.body);
    PrepareFromParts(EchoBackend(call.body), data, call, call.url, call.query, body);
  }

  lemma EchoResolves(template: string, data: Data, s: string)
    ensures EchoBackend(template).resolve(data, s) == Ok(Echo(template, data, s))
    ensures forall call :: EchoBackend(template).holds(data, call) && EchoBackend(template).credential(call) == Ok("")
  {
  }

  lemma PrepareFromParts(env: Env, data: Data, call: Call, url: string, query: string, body: string)
    requires env.holds(data, call) && env.credential(call) == Ok("")
    requires env.resolve(data, call.url) == Ok(url) && env.resolve(data, call.query) == Ok(query)
    requires env.resolve(data, call.body) == Ok(body)
    ensures Prepare(env, "", data, 0, call) == Ready(Request("", call, url, query, body, ""))
  {
  }

  /** What the first run stores. */
  function EchoStored(call: Call): Stored {
    Stored(EchoRequest(call, "a"), 0, 0, 0, Cached(map["body" := Str("a")], 10))
  }

  lemma EchoRunStores(call: Call)
    requires call.cacheFor != "" && call.body != call.url && call.body != call.query
    ensures CachedRun(EchoBackend(call.body), "", map[call.body := Str("a")], Empty(0), [call]).state
         == Holding(EchoStored(call))
    ensures Honest(EchoBackend(call.body), EchoStored(call))
  {
    var env, data, request := EchoBackend(call.body), map[call.body := Str("a")], EchoRequest(call, "a");
    EchoPrepares(call, "a");
    assert Settle(call, env.fetch(request, 0)) == Ok(map["body" := Str("a")]) && env.ttl(call.cacheFor) == Ok(10);
    OneCall(env, "", data, Empty(0), call, 0);
    assert View(data, START) == data;
    hide EchoBackend, Prepare, KeyOf;
    assert Obtained(env, Empty(0), request).state == Holding(EchoStored(call));
  }

  /** Two runs of one call, one after the other, whose data give it different bodies: the second run
      is answered by what the first one stored, and reports what no fetch would. */
  lemma OtherBodyIsAWrongHit(call: Call)
    requires call.cacheFor != "" && call.body != call.url && call.body != call.query
    ensures exists env: Env, data: Data, data': Data ::
              var first, second := Prepare(env, "", data, 0, call), Prepare(env, "", data', 0, call);
              var left := CachedRun(env, "", data, Empty(0), [call]).state;
              && first.Ready? && second.Ready?
              && Arises(env, iset{first.request}, left) && WrongHit(left, second.request)
              && CachedRun(env, "", data', left, [call]).report != FetchRun(env, "", data', [call], [0])
  {
    var env, e, r := EchoBackend(call.body), EchoStored(call), EchoRequest(call, "b");
    var data: Data, data': Data := map[call.body := Str("a")], map[call.body := Str("b")];
    EchoPrepares(call, "a");
    EchoPrepares(call, "b");
    EchoRunStores(call);
    assert "a"[0] != "b"[0] && e.request == EchoRequest(call, "a") && e.request != r && Shares(e, r);
    assert KeyOf(e.request) == KeyOf(r);
    OtherBodyIsNotCurrent(call);
    assert e.storedAt == 0 && e.value.expiresAt == 10 && r.call == call;
    hide *;
    HoldingArises(env, iset{e.request}, e);
    HoldingHits(e, r);
    HoldingServes(env, e);
    HitAgreesIff(env, e, r, "", data', Holding(e), 0);
    assert WrongHit(CachedRun(env, "", data, Empty(0), [call]).state, Prepare(env, "", data', 0, call).request);
  }

  lemma OtherBodyIsNotCurrent(call: Call)
    ensures !Current(EchoBackend(call.body), EchoStored(call), EchoRequest(call, "b"), 0)
  {
    var kept: Entry, asked: Entry := map["body" := Str("a")], map["body" := Str("b")];
    assert kept["body"] != asked["body"];
  }

  lemma HoldingServes(env: Env, e: Stored)
    requires Honest(env, e)
    ensures CanServe(env, Holding(e), e, e.storedAt)
  {
    HoldingIsReachable(env, e);
  }
}
