/** A fixed configuration of declared calls: the requests it can send, when two of them share a cache
    key, and what that means for the cached run. */
module ExternalConfiguration {
  import opened Common
  import opened ExternalCalls
  import opened LoneRunner
  import opened ResultCache
  import opened ExternalRunner

  /** A call, as declared for the resources of a gvk. */
  datatype Declared = Declared(gvk: string, call: Call)

  /** A cached request that some run of a declared call sends, for some data. */
  ghost predicate Sendable(env: Env, config: set<Declared>, r: Request) {
    && r.call.cacheFor != "" && Declared(r.gvk, r.call) in config
    && exists view :: Prepare(env, r.gvk, view, 0, r.call) == Ready(r)
  }

  ghost function Requests(env: Env, config: set<Declared>): iset<Request> {
    iset r: Request | Sendable(env, config, r)
  }

  lemma SentIsPrepared(env: Env, gvk: string, view: Data, i: nat, call: Call, r: Request)
    requires Prepare(env, gvk, view, i, call) == Ready(r)
    ensures r.gvk == gvk && r.call == call && Prepare(env, gvk, view, 0, call) == Ready(r)
    ensures env.credential(call) == Ok(r.credential)
  {
  }

  /** The cached requests of a run of declared calls, whatever their answers. */
  lemma RunSendsDeclared(env: Env, config: set<Declared>, gvk: string, data: Data, calls: seq<Call>,
                         answers: seq<Result<Entry>>, j: nat)
    requires |answers| == |calls| && forall i | 0 <= i < |calls| :: Declared(gvk, calls[i]) in config
    requires j in AnsweredRun(env, gvk, data, calls, answers).progress.made
    requires AnsweredRun(env, gvk, data, calls, answers).progress.made[j].call.cacheFor != ""
    ensures AnsweredRun(env, gvk, data, calls, answers).progress.made[j] in Requests(env, config)
  {
    var r := AnsweredRun(env, gvk, data, calls, answers).progress.made[j];
    MadeIsPrepared(env, gvk, data, calls, answers, j);
    hide AnsweredRun, Prepare;
    var view :| Prepare(env, gvk, view, j, calls[j]) == Ready(r);
    SentIsPrepared(env, gvk, view, j, calls[j], r);
  }

  // ----- When keys tell requests apart -----

  /** Requests are determined by gvk, call name, url and query, and the first three hold no NUL. */
  ghost predicate Fixed(requests: iset<Request>) {
    && (forall r <- requests :: NulFree(r.gvk) && NulFree(r.call.name) && NulFree(r.url))
    && (forall r, r' | r in requests && r' in requests ::
          r.gvk == r'.gvk && r.call.name == r'.call.name && r.url == r'.url && r.query == r'.query ==> r == r')
  }

  lemma KeyTellsRequestsApart(requests: iset<Request>, r: Request, r': Request)
    requires Fixed(requests) && r in requests && r' in requests
    ensures KeyOf(r) == KeyOf(r') <==> r == r'
  {
    CacheKeyInjective(r.gvk, r.call.name, r.url, r.query, r'.gvk, r'.call.name, r'.url, r'.query);
  }

  /** While only such requests are stored, none of them is ever answered by another's entry. */
  lemma FixedMeansNoWrongHit(requests: iset<Request>, r: Request, s: State)
    requires Fixed(requests) && r in requests && Within(requests, s)
    ensures !WrongHit(s, r)
  {
    hide Fixed, KeyOf, LookUp;
    forall i: nat | Newest(s.log, i) && KeyOf(s.log[i].request) == KeyOf(r) ensures s.log[i].request == r {
      assert s.log[i].request in requests;
      KeyTellsRequestsApart(requests, s.log[i].request, r);
    }
  }

  /** Call names are distinct within a gvk, and no NUL gets into the first three parts of a key. */
  ghost predicate WellNamed(env: Env, config: set<Declared>) {
    && (forall a, b | a in config && b in config :: a.gvk == b.gvk && a.call.name == b.call.name ==> a == b)
    && (forall r <- Requests(env, config) :: NulFree(r.gvk) && NulFree(r.call.name) && NulFree(r.url))
  }

  /** Two requests of one call that differ in the body they post and in nothing the key holds. */
  predicate BodiesDiffer(q: Request, r: Request) {
    q.gvk == r.gvk && q.call == r.call && q.url == r.url && q.query == r.query && q.body != r.body
  }

  lemma SentForOneCall(env: Env, config: set<Declared>, q: Request, r: Request)
    requires q in Requests(env, config) && r in Requests(env, config) && q.call == r.call
    ensures q.credential == r.credential
  {
    hide Prepare;
    var view :| Prepare(env, q.gvk, view, 0, q.call) == Ready(q);
    SentIsPrepared(env, q.gvk, view, 0, q.call, q);
    var view' :| Prepare(env, r.gvk, view', 0, r.call) == Ready(r);
    SentIsPrepared(env, r.gvk, view', 0, r.call, r);
  }

  /** In such a configuration only the body can make two requests share a key. */
  lemma KeyIsSharedByBodies(env: Env, config: set<Declared>, q: Request, r: Request)
    requires WellNamed(env, config) && q in Requests(env, config) && r in Requests(env, config)
    ensures KeyOf(q) == KeyOf(r) && q != r <==> BodiesDiffer(q, r)
  {
    CacheKeyInjective(q.gvk, q.call.name, q.url, q.query, r.gvk, r.call.name, r.url, r.query);
    assert Declared(q.gvk, q.call) in config && Declared(r.gvk, r.call) in config;
    hide CacheKey, NulFree, Sendable;
    if q.call == r.call { SentForOneCall(env, config, q, r); }
  }

  /** Exactly when a declared call can be answered by an entry stored for another request: for other
      data it resolves to the same url and query and to another body, and that request can be stored. */
  lemma WrongHitIffBodiesDiffer(env: Env, config: set<Declared>, r: Request)
    requires WellNamed(env, config) && r in Requests(env, config)
    ensures (exists s :: Arises(env, Requests(env, config), s) && WrongHit(s, r))
       <==> exists q :: q in Requests(env, config) && Storable(env, q) && BodiesDiffer(q, r)
  {
    var requests := Requests(env, config);
    WrongHitIff(env, requests, r);
    hide *;
    if exists q :: q in requests && q != r && Storable(env, q) && KeyOf(q) == KeyOf(r) {
      var q :| q in requests && q != r && Storable(env, q) && KeyOf(q) == KeyOf(r);
      KeyIsSharedByBodies(env, config, q, r);
    }
    if exists q :: q in requests && Storable(env, q) && BodiesDiffer(q, r) {
      var q :| q in requests && Storable(env, q) && BodiesDiffer(q, r);
      KeyIsSharedByBodies(env, config, q, r);
    }
  }

  /** So such a configuration is fixed exactly when url and query of a call determine its body. */
  lemma FixedIff(env: Env, config: set<Declared>)
    requires WellNamed(env, config)
    ensures Fixed(Requests(env, config))
       <==> forall q, r | q in Requests(env, config) && r in Requests(env, config) :: !BodiesDiffer(q, r)
  {
    var requests := Requests(env, config);
    hide Requests;
    forall q, r | q in requests && r in requests ensures KeyOf(q) == KeyOf(r) && q != r <==> BodiesDiffer(q, r) {
      KeyIsSharedByBodies(env, config, q, r);
    }
    hide NulFree, BodiesDiffer;
    if Fixed(requests) {
      forall q, r | q in requests && r in requests ensures !BodiesDiffer(q, r) {
        KeyTellsRequestsApart(requests, q, r);
      }
    }
  }

  // ----- Configurations of both kinds -----

  lemma SentResolves(env: Env, gvk: string, view: Data, i: nat, call: Call, r: Request)
    requires Prepare(env, gvk, view, i, call) == Ready(r)
    ensures env.resolve(view, call.url) == Ok(r.url) && env.resolve(view, call.body) == Ok(r.body)
  {
  }

  lemma DeclaredOnce(call: Call, env: Env, template: string)
    requires env == EchoBackend(template) && template != call.url && NulFree(call.name) && NulFree(call.url)
    ensures WellNamed(env, {Declared("", call)})
  {
    hide Prepare, Echo, EchoBackend;
    forall r | r in Requests(env, {Declared("", call)})
      ensures NulFree(r.gvk) && NulFree(r.call.name) && NulFree(r.url)
    {
      var view :| Prepare(env, r.gvk, view, 0, r.call) == Ready(r);
      assert Declared(r.gvk, r.call) == Declared("", call);
      SentResolves(env, r.gvk, view, 0, r.call, r);
      EchoResolves(template, view, call.url);
      EchoIsFor(template, view, call.url);
    }
  }

  lemma EchoIsFor(template: string, view: Data, s: string)
    requires s != template
    ensures Echo(template, view, s) == s
  {
  }

  /** A call whose body depends on the data, and is not in url and query: other requests have its key. */
  lemma BodyFromDataCollides(call: Call)
    requires call.cacheFor != "" && NulFree(call.name) && NulFree(call.url)
    requires call.body != call.url && call.body != call.query
    ensures WellNamed(EchoBackend(call.body), {Declared("", call)})
    ensures exists q, r ::
              && q in Requests(EchoBackend(call.body), {Declared("", call)})
              && r in Requests(EchoBackend(call.body), {Declared("", call)})
              && Storable(EchoBackend(call.body), q) && BodiesDiffer(q, r)
  {
    var env, q, r := EchoBackend(call.body), EchoRequest(call, "a"), EchoRequest(call, "b");
    DeclaredOnce(call, env, call.body);
    EchoPrepares(call, "a");
    EchoPrepares(call, "b");
    assert Settle(call, env.fetch(q, 0)).Ok? && Storable(env, q);
    assert "a"[0] != "b"[0] && BodiesDiffer(q, r);
    hide Prepare, EchoBackend, Storable;
    assert Sendable(env, {Declared("", call)}, q) && Sendable(env, {Declared("", call)}, r);
  }

  /** A call whose url and body do not depend on the data is a fixed configuration. */
  lemma StaticBodyIsFixed(call: Call, template: string)
    requires call.cacheFor != "" && NulFree(call.name) && NulFree(call.url)
    requires template != call.url && template != call.body
    ensures Fixed(Requests(EchoBackend(template), {Declared("", call)}))
    ensures exists r :: r in Requests(EchoBackend(template), {Declared("", call)}) && Storable(EchoBackend(template), r)
  {
    var env, config := EchoBackend(template), {Declared("", call)};
    StaticBodyIsSent(call, template);
    DeclaredOnce(call, env, template);
    FixedIff(env, config);
    hide Prepare, Echo, EchoBackend, WellNamed, Fixed;
    forall q, r | q in Requests(env, config) && r in Requests(env, config) ensures !BodiesDiffer(q, r) {
      assert Declared(q.gvk, q.call) == Declared("", call) && Declared(r.gvk, r.call) == Declared("", call);
      BodyIsFixed(template, call, q);
      BodyIsFixed(template, call, r);
    }
  }

  lemma StaticBodyIsSent(call: Call, template: string)
    requires call.cacheFor != ""
    ensures exists r :: r in Requests(EchoBackend(template), {Declared("", call)}) && Storable(EchoBackend(template), r)
  {
    var env, r := EchoBackend(template), EchoRequest(call, call.body);
    assert env.resolve(map[], call.url) == Ok(call.url) && env.resolve(map[], call.query) == Ok(call.query);
    PrepareFromParts(env, map[], call, call.url, call.query, call.body);
    assert Settle(call, env.fetch(r, 0)).Ok? && Storable(env, r);
    hide Prepare, EchoBackend, Storable;
    assert Sendable(env, {Declared("", call)}, r);
  }

  lemma BodyIsFixed(template: string, call: Call, r: Request)
    requires template != call.body && r.call == call
    requires exists view :: Prepare(EchoBackend(template), r.gvk, view, 0, call) == Ready(r)
    ensures r.body == call.body
  {
    hide Prepare, Echo, EchoBackend;
    var view :| Prepare(EchoBackend(template), r.gvk, view, 0, call) == Ready(r);
    SentResolves(EchoBackend(template), r.gvk, view, 0, call, r);
    EchoResolves(template, view, call.body);
    EchoIsFor(template, view, call.body);
  }

  // ----- The cached run in a fixed configuration -----

  /** Every stored answer stays current for the request it was stored for, while it can be served. */
  ghost predicate Steady(env: Env, log: seq<Stored>) {
    forall i, t | 0 <= i < |log| && log[i].storedAt <= t <= log[i].value.expiresAt ::
      Current(env, log[i], log[i].request, t)
  }

  lemma SteadyIsEnough(env: Env, requests: iset<Request>, s: State, made: map<nat, Request>)
    requires Fixed(requests) && Within(requests, s) && Steady(env, s.log)
    requires forall j <- made | made[j].call.cacheFor != "" :: made[j] in requests
    ensures ServableIsCurrent(env, s.log, made)
  {
    hide Fixed, Current, KeyOf;
    forall i, j, t | 0 <= i < |s.log| && j in made && Shares(s.log[i], made[j])
                     && s.log[i].storedAt <= t <= s.log[i].value.expiresAt
      ensures Current(env, s.log[i], made[j], t)
    {
      KeyTellsRequestsApart(requests, s.log[i].request, made[j]);
      assert Current(env, s.log[i], s.log[i].request, t);
    }
  }

  /** The Stores made since `before` that are not among this run's own are for these requests. */
  ghost predicate OthersWithin(requests: iset<Request>, before: State, after: State, mine: seq<Stored>) {
    forall i | |before.log| <= i < |after.log| && after.log[i] !in mine :: after.log[i].request in requests
  }

  lemma OwnIsMade(env: Env, requests: iset<Request>, own0: seq<Stored>, own: seq<Stored>, made: map<nat, Request>,
                  at: seq<int>, ids: seq<nat>, e: Stored)
    requires OwnStores(own0, own, made, at, ids) && e in own[|own0|..] && Honest(env, e)
    requires forall j <- made | made[j].call.cacheFor != "" :: made[j] in requests
    ensures e.request in requests
  {
    var j :| 0 <= j < |own| - |own0| && own[|own0|..][j] == e;
    assert own[|own0| + j] == e && ids[j] in made && made[ids[j]] == e.request;
  }

  /** A cache of such requests stays one when this run's requests and the other goroutines' Stores are
      such requests. */
  lemma StaysWithin(env: Env, requests: iset<Request>, before: State, after: State, own0: seq<Stored>,
                    own: seq<Stored>, made: map<nat, Request>, at: seq<int>, ids: seq<nat>)
    requires Consistent(env, before) && Evolves(env, before, after) && Within(requests, before)
    requires OwnStores(own0, own, made, at, ids) && OthersWithin(requests, before, after, own[|own0|..])
    requires forall j <- made | made[j].call.cacheFor != "" :: made[j] in requests
    ensures Within(requests, after)
  {
    hide Evolves, OwnStores, Honest;
    EvolvingKeepsConsistent(env, before, after);
    OwnStoresGrow(own0, own, made, at, ids);
    forall i | 0 <= i < |after.log| ensures after.log[i].request in requests {
      if i < |before.log| {
        assert after.log[i] == before.log[i];
      } else if after.log[i] in own[|own0|..] {
        OwnIsMade(env, requests, own0, own, made, at, ids, after.log[i]);
      }
    }
  }

  lemma OwnStoresGrow(own0: seq<Stored>, own: seq<Stored>, made: map<nat, Request>, at: seq<int>, ids: seq<nat>)
    requires OwnStores(own0, own, made, at, ids)
    ensures |own0| <= |own|
  {
  }

  /** What Run promises of its report, for a run of a fixed configuration: as long as the other
      goroutines store answers to requests of the configuration and stored answers stay current,
      the run reports what fetching each call at its own instant reports. */
  lemma ConfiguredRunAgrees(
      env: Env, config: set<Declared>, before: State, after: State, own0: seq<Stored>, own: seq<Stored>,
      gvk: string, data: Data, calls: seq<Call>, r: Report,
      answers: seq<Result<Entry>>, at: seq<int>, ids: seq<nat>, start: int, end: int)
    requires Consistent(env, before) && Evolves(env, before, after)
    requires OwnStores(own0, own, r.progress.made, at, ids)
    requires Accounts(after.log, env, gvk, data, calls, r, answers, at, start, end)
    requires Fixed(Requests(env, config)) && forall i | 0 <= i < |calls| :: Declared(gvk, calls[i]) in config
    requires Within(Requests(env, config), before) && |own0| <= |own|
    requires OthersWithin(Requests(env, config), before, after, own[|own0|..])
    requires Steady(env, after.log)
    ensures Within(Requests(env, config), after)
    ensures r == FetchRun(env, gvk, data, calls, at)
  {
    var requests, made := Requests(env, config), r.progress.made;
    assert |answers| == |at| == |calls| && r == AnsweredRun(env, gvk, data, calls, answers);
    hide *;
    forall j | j in made && made[j].call.cacheFor != "" ensures made[j] in requests {
      RunSendsDeclared(env, config, gvk, data, calls, answers, j);
    }
    StaysWithin(env, requests, before, after, own0, own, made, at, ids);
    SteadyIsEnough(env, requests, after, made);
    CachedRunAgreesWithFetching(env, after.log, gvk, data, calls, r, answers, at, start, end);
  }
}
