/** The process-wide cache of call results (pkg/external/protocol.go): its atomic steps, the
    invariant every interleaving keeps, and the object the runner uses. */
module ResultCache {
  import opened Common
  import opened ExternalCalls
  import opened Values

  // ----- Keys -----

  function CacheKey(gvk: string, name: string, url: string, query: string): string {
    gvk + "\0" + name + "\0" + url + "\0" + query
  }

  function KeyOf(r: Request): string {
    CacheKey(r.gvk, r.call.name, r.url, r.query)
  }

  predicate NulFree(s: string) {
    '\0' !in s
  }

  function FirstNul(s: string): nat {
    if s == "" || s[0] == '\0' then 0 else 1 + FirstNul(s[1..])
  }

  lemma {:induction false} FirstNulAfter(a: string, x: string)
    requires NulFree(a)
    ensures FirstNul(a + "\0" + x) == |a|
  {
    if a != "" {
      assert (a + "\0" + x)[1..] == a[1..] + "\0" + x;
      FirstNulAfter(a[1..], x);
    }
  }

  /** A NUL-free first part can be cut off again. */
  lemma FirstPartDetermined(a: string, x: string, b: string, y: string)
    requires NulFree(a) && NulFree(b)
    requires a + "\0" + x == b + "\0" + y
    ensures a == b && x == y
  {
    FirstNulAfter(a, x);
    FirstNulAfter(b, y);
    var s := a + "\0" + x;
    assert a == s[..|a|] && b == (b + "\0" + y)[..|b|];
    assert x == s[|a| + 1..] && y == (b + "\0" + y)[|b| + 1..];
  }

  /** The key determines its four parts as soon as the first three are NUL-free; the query
      may hold anything. */
  lemma CacheKeyInjective(g: string, n: string, u: string, q: string, g': string, n': string, u': string, q': string)
    requires NulFree(g) && NulFree(n) && NulFree(u) && NulFree(g') && NulFree(n') && NulFree(u')
    ensures CacheKey(g, n, u, q) == CacheKey(g', n', u', q') <==> g == g' && n == n' && u == u' && q == q'
  {
    if CacheKey(g, n, u, q) == CacheKey(g', n', u', q') {
      var rest, rest' := n + "\0" + u + "\0" + q, n' + "\0" + u' + "\0" + q';
      assert CacheKey(g, n, u, q) == g + "\0" + rest && CacheKey(g', n', u', q') == g' + "\0" + rest';
      FirstPartDetermined(g, rest, g', rest');
      var tail, tail' := u + "\0" + q, u' + "\0" + q';
      assert rest == n + "\0" + tail && rest' == n' + "\0" + tail';
      FirstPartDetermined(n, tail, n', tail');
      FirstPartDetermined(u, q, u', q');
    }
  }

  datatype Parts = Parts(gvk: string, name: string, url: string, query: string)

  function PartsKey(p: Parts): string { CacheKey(p.gvk, p.name, p.url, p.query) }

  predicate HoldsNul(p: Parts) {
    !NulFree(p.gvk) || !NulFree(p.name) || !NulFree(p.url) || !NulFree(p.query)
  }

  function Nuls(s: string): nat {
    if s == "" then 0 else (if s[0] == '\0' then 1 else 0) + Nuls(s[1..])
  }

  lemma {:induction false} NulsAdd(a: string, b: string)
    ensures Nuls(a + b) == Nuls(a) + Nuls(b)
  {
    if a == "" {
      assert a + b == b;
    } else {
      NulsAdd(a[1..], b);
      assert (a + b)[1..] == a[1..] + b;
    }
  }

  lemma {:induction false} NoNulsIff(s: string)
    ensures Nuls(s) == 0 <==> NulFree(s)
  {
    if s != "" {
      NoNulsIff(s[1..]);
      assert s == [s[0]] + s[1..];
    }
  }

  lemma KeyNuls(p: Parts)
    ensures Nuls(PartsKey(p)) == 3 + Nuls(p.gvk) + Nuls(p.name) + Nuls(p.url) + Nuls(p.query)
  {
    var one, two, three := p.gvk + "\0" + p.name, p.gvk + "\0" + p.name + "\0", p.gvk + "\0" + p.name + "\0" + p.url;
    assert Nuls("\0") == 1;
    NulsAdd(p.gvk, "\0");
    NulsAdd(p.gvk + "\0", p.name);
    NulsAdd(one, "\0");
    NulsAdd(two, p.url);
    NulsAdd(three, "\0");
    NulsAdd(three + "\0", p.query);
  }

  /** A key with just its three separators belongs to one quadruple: any other has no NUL either. */
  lemma NulFreeKeyIsUnique(p: Parts, p': Parts)
    requires !HoldsNul(p) && PartsKey(p) == PartsKey(p')
    ensures p == p'
  {
    KeyNuls(p);
    KeyNuls(p');
    NoNulsIff(p.gvk);
    NoNulsIff(p.name);
    NoNulsIff(p.url);
    NoNulsIff(p.query);
    NoNulsIff(p'.gvk);
    NoNulsIff(p'.name);
    NoNulsIff(p'.url);
    NoNulsIff(p'.query);
    hide PartsKey, Nuls;
    assert PartsKey(p) == CacheKey(p.gvk, p.name, p.url, p.query) by { KeyOfParts(p); }
    assert PartsKey(p') == CacheKey(p'.gvk, p'.name, p'.url, p'.query) by { KeyOfParts(p'); }
    CacheKeyInjective(p.gvk, p.name, p.url, p.query, p'.gvk, p'.name, p'.url, p'.query);
  }

  lemma KeyOfParts(p: Parts)
    ensures PartsKey(p) == CacheKey(p.gvk, p.name, p.url, p.query)
  {
  }

  /** A part that holds a NUL, cut there. */
  lemma CutAtNul(s: string) returns (before: string, after: string)
    requires !NulFree(s)
    ensures s == before + "\0" + after && |before| < |s|
  {
    var i :| 0 <= i < |s| && s[i] == '\0';
    before, after := s[..i], s[i + 1..];
  }

  /** Moving the cut to another separator gives another quadruple with the same key. */
  lemma OtherParts(p: Parts) returns (p': Parts)
    requires HoldsNul(p)
    ensures p' != p && PartsKey(p') == PartsKey(p)
  {
    if !NulFree(p.gvk) {
      var a, b := CutAtNul(p.gvk);
      p' := Parts(a, b + "\0" + p.name, p.url, p.query);
    } else if !NulFree(p.name) {
      var a, b := CutAtNul(p.name);
      p' := Parts(p.gvk, a, b + "\0" + p.url, p.query);
    } else if !NulFree(p.url) {
      var a, b := CutAtNul(p.url);
      p' := Parts(p.gvk, p.name, a, b + "\0" + p.query);
    } else {
      var a, b := CutAtNul(p.query);
      p' := Parts(p.gvk, p.name, p.url + "\0" + a, b);
    }
    assert PartsKey(p') == PartsKey(p);
  }

  /** Exactly when a quadruple shares its key with another one. */
  lemma KeyIsSharedIff(p: Parts)
    ensures (exists p' :: p' != p && PartsKey(p') == PartsKey(p)) <==> HoldsNul(p)
  {
    if HoldsNul(p) {
      var p' := OtherParts(p);
      assert p' != p && PartsKey(p') == PartsKey(p);
    } else {
      forall p' | PartsKey(p') == PartsKey(p) ensures p' == p {
        NulFreeKeyIsUnique(p, p');
      }
    }
  }

  // ----- The cache as shared state: atomic steps of any number of goroutines -----

  datatype Cached = Cached(data: Entry, expiresAt: int)

  /** One Store: which request was answered when, when the clock was read for the expiry, when the
      Store took place, and what was put under the key. */
  datatype Stored = Stored(request: Request, fetchedAt: int, clockAt: int, storedAt: int, value: Cached)

  /** `log` lists every Store so far, oldest first. */
  datatype State = State(entries: map<string, Cached>, now: int, log: seq<Stored>)

  /** The stored entry is what the backend answered to the request when it was fetched, and
      lives for the call's cacheFor, counted from when the clock was read for it. */
  ghost predicate Honest(env: Env, s: Stored) {
    && s.request.call.cacheFor != ""
    && s.fetchedAt <= s.clockAt <= s.storedAt
    && env.ttl(s.request.call.cacheFor).Ok?
    && s.value.expiresAt == s.clockAt + env.ttl(s.request.call.cacheFor).value
    && Settle(s.request.call, env.fetch(s.request, s.fetchedAt)) == Ok(s.value.data)
  }

  predicate StoreStep(s: State, s': State, event: Stored) {
    s' == s.(entries := s.entries[KeyOf(event.request) := event.value], log := s.log + [event])
  }

  /** Time passes, some key is deleted, or an honest entry is stored. Loads change nothing. */
  ghost predicate Next(env: Env, s: State, s': State) {
    || (s.now <= s'.now && s' == s.(now := s'.now))
    || (exists key :: s' == s.(entries := s.entries - {key}))
    || (exists event: Stored :: Honest(env, event) && event.storedAt == s.now && StoreStep(s, s', event))
  }

  ghost predicate Trace(env: Env, states: seq<State>) {
    |states| > 0 && forall i :: 0 < i < |states| ==> Next(env, states[i - 1], states[i])
  }

  /** s' is reachable from s by steps of any goroutines in any order. */
  ghost predicate Evolves(env: Env, s: State, s': State) {
    exists states: seq<State> :: Trace(env, states) && states[0] == s && states[|states| - 1] == s'
  }

  lemma EvolvesByStep(env: Env, s: State, s': State)
    requires Next(env, s, s')
    ensures Evolves(env, s, s')
  {
    var states := [s, s'];
    assert Trace(env, states) && states[0] == s && states[|states| - 1] == s';
  }

  lemma EvolvesStays(env: Env, s: State)
    ensures Evolves(env, s, s)
  {
    var states := [s];
    assert Trace(env, states) && states[0] == s && states[|states| - 1] == s;
  }

  lemma EvolvesTransitive(env: Env, a: State, b: State, c: State)
    requires Evolves(env, a, b) && Evolves(env, b, c)
    ensures Evolves(env, a, c)
  {
    var first: seq<State> :| Trace(env, first) && first[0] == a && first[|first| - 1] == b;
    var second: seq<State> :| Trace(env, second) && second[0] == b && second[|second| - 1] == c;
    var both := first + second[1..];
    forall i | 0 < i < |both| ensures Next(env, both[i - 1], both[i]) {
      if i < |first| {
      } else {
        assert both[i] == second[i - |first| + 1];
        assert both[i - 1] == second[i - |first|];
      }
    }
    assert Trace(env, both) && both[0] == a && both[|both| - 1] == c;
  }

  /** `event` is the newest Store under its key. */
  ghost predicate Newest(log: seq<Stored>, i: nat) {
    i < |log| && forall j :: i < j < |log| ==> KeyOf(log[j].request) != KeyOf(log[i].request)
  }

  ghost predicate Backed(s: State, key: string)
    requires key in s.entries
  {
    exists i: nat :: Newest(s.log, i) && KeyOf(s.log[i].request) == key && s.log[i].value == s.entries[key]
  }

  /** Every stored event was honest and is past, and what a key holds, if anything, is the
      value of the newest Store under that very key. */
  ghost predicate Consistent(env: Env, s: State) {
    && (forall i :: 0 <= i < |s.log| ==> Honest(env, s.log[i]) && s.log[i].storedAt <= s.now)
    && (forall key <- s.entries :: Backed(s, key))
  }

  lemma StoreKeepsConsistent(env: Env, s: State, s': State, event: Stored)
    requires Consistent(env, s) && Honest(env, event) && event.storedAt == s.now && StoreStep(s, s', event)
    ensures Consistent(env, s')
  {
    hide Honest;
    var last := |s.log|;
    forall key | key in s'.entries ensures Backed(s', key) {
      if key == KeyOf(event.request) {
        assert Newest(s'.log, last) && s'.log[last] == event;
      } else {
        assert Backed(s, key);
        var i: nat :| Newest(s.log, i) && KeyOf(s.log[i].request) == key && s.log[i].value == s.entries[key];
        assert Newest(s'.log, i) && s'.log[i] == s.log[i];
      }
    }
  }

  lemma StepKeepsConsistent(env: Env, s: State, s': State)
    requires Consistent(env, s) && Next(env, s, s')
    ensures Consistent(env, s')
    ensures s.log <= s'.log && s.now <= s'.now
  {
    if exists event: Stored :: Honest(env, event) && event.storedAt == s.now && StoreStep(s, s', event) {
      var event: Stored :| Honest(env, event) && event.storedAt == s.now && StoreStep(s, s', event);
      hide Consistent, Honest;
      StoreKeepsConsistent(env, s, s', event);
    } else {
      hide Honest;
      forall key | key in s'.entries ensures Backed(s', key) {
        assert Backed(s, key);
        var i: nat :| Newest(s.log, i) && KeyOf(s.log[i].request) == key && s.log[i].value == s.entries[key];
        hide Consistent;
        assert Newest(s'.log, i);
      }
    }
  }

  /** Safety over whole runs: whatever the goroutines do, in whatever order. */
  lemma EvolvingKeepsConsistent(env: Env, s: State, s': State)
    requires Consistent(env, s) && Evolves(env, s, s')
    ensures Consistent(env, s')
    ensures s.log <= s'.log && s.now <= s'.now
  {
    var states: seq<State> :| Trace(env, states) && states[0] == s && states[|states| - 1] == s';
    var i := 0;
    while i + 1 < |states|
      invariant 0 <= i < |states|
      invariant Consistent(env, states[i])
      invariant s.log <= states[i].log && s.now <= states[i].now
    {
      assert Next(env, states[i], states[i + 1]);
      StepKeepsConsistent(env, states[i], states[i + 1]);
      i := i + 1;
    }
  }

  /** The lookup that deletes an expired entry is three steps, so a fresh entry stored in
      between is deleted in its place: the next lookup misses although nothing expired. */
  lemma DeleteCanDropAFreshEntry(env: Env, s: State, young: Stored)
    requires Honest(env, young) && young.storedAt == s.now <= young.value.expiresAt
    requires KeyOf(young.request) in s.entries && s.entries[KeyOf(young.request)].expiresAt < s.now
    ensures exists s1, s2 ::
              && Next(env, s, s1) && StoreStep(s, s1, young)
              && Next(env, s1, s2) && s2 == s1.(entries := s1.entries - {KeyOf(young.request)})
              && KeyOf(young.request) !in s2.entries
              && s2.log[|s2.log| - 1].value.expiresAt >= s2.now
  {
    var s1 := s.(entries := s.entries[KeyOf(young.request) := young.value], log := s.log + [young]);
    var s2 := s1.(entries := s1.entries - {KeyOf(young.request)});
    assert StoreStep(s, s1, young);
    assert Next(env, s, s1) && Next(env, s1, s2);
  }

  // ----- Lookups and stores as functions of the state -----

  function LookUp(s: State, key: string): Option<Entry> {
    if key in s.entries && s.now <= s.entries[key].expiresAt then Some(s.entries[key].data) else None
  }

  /** A lookup deletes an expired entry. */
  function AfterLookUp(s: State, key: string): State {
    if key in s.entries && s.entries[key].expiresAt < s.now then s.(entries := s.entries - {key}) else s
  }

  lemma HitDeletesNothing(s: State, key: string)
    ensures LookUp(s, key).Some? ==> AfterLookUp(s, key) == s
  {
  }

  function Put(s: State, event: Stored): State {
    s.(entries := s.entries[KeyOf(event.request) := event.value], log := s.log + [event])
  }

  // ----- Answers to other requests -----

  /** Every Store was for one of these requests. */
  ghost predicate Within(requests: iset<Request>, s: State) {
    forall i | 0 <= i < |s.log| :: s.log[i].request in requests
  }

  function Empty(now: int): State { State(map[], now, []) }

  /** What steps of any goroutines make of an empty cache when they store answers to these requests
      only. */
  ghost predicate Arises(env: Env, requests: iset<Request>, s: State) {
    Within(requests, s) && exists start :: Evolves(env, Empty(start), s)
  }

  lemma ArisenIsConsistent(env: Env, requests: iset<Request>, s: State)
    requires Arises(env, requests, s)
    ensures Consistent(env, s)
  {
    var start :| Evolves(env, Empty(start), s);
    assert Consistent(env, Empty(start));
    hide Evolves, Consistent;
    EvolvingKeepsConsistent(env, Empty(start), s);
  }

  /** A request some of whose answers can be stored and then served. */
  ghost predicate Storable(env: Env, r: Request) {
    && r.call.cacheFor != ""
    && env.ttl(r.call.cacheFor).Ok? && env.ttl(r.call.cacheFor).value >= 0
    && exists t :: Settle(r.call, env.fetch(r, t)).Ok?
  }

  /** The lookup for a cached request r hits an entry that was stored for another request. */
  ghost predicate WrongHit(s: State, r: Request) {
    && r.call.cacheFor != "" && LookUp(s, KeyOf(r)).Some?
    && exists i: nat :: Newest(s.log, i) && KeyOf(s.log[i].request) == KeyOf(r) && s.log[i].request != r
  }

  /** The cache right after a first Store. */
  function Holding(event: Stored): State { Put(Empty(event.storedAt), event) }

  lemma HoldingIsReachable(env: Env, event: Stored)
    requires Honest(env, event)
    ensures Consistent(env, Holding(event)) && Newest(Holding(event).log, 0)
    ensures Next(env, Empty(event.storedAt), Holding(event))
  {
    var empty := Empty(event.storedAt);
    assert StoreStep(empty, Holding(event), event);
    assert Consistent(env, empty);
    StoreKeepsConsistent(env, empty, Holding(event), event);
  }

  lemma HoldingArises(env: Env, requests: iset<Request>, event: Stored)
    requires Honest(env, event) && event.request in requests
    ensures Arises(env, requests, Holding(event))
  {
    HoldingIsReachable(env, event);
    EvolvesByStep(env, Empty(event.storedAt), Holding(event));
  }

  /** An entry just stored under the key of r, and not expired yet, hits. */
  lemma HoldingHits(event: Stored, r: Request)
    requires event.request != r && KeyOf(event.request) == KeyOf(r) && r.call.cacheFor != ""
    requires event.storedAt <= event.value.expiresAt
    ensures WrongHit(Holding(event), r)
  {
    hide KeyOf;
    var s := Holding(event);
    assert s.log == [event] && s.log[0].request == event.request;
    assert Newest(s.log, 0);
  }

  lemma StorableCanHitOthers(env: Env, requests: iset<Request>, q: Request, r: Request)
    requires q in requests && q != r && Storable(env, q) && KeyOf(q) == KeyOf(r) && r.call.cacheFor != ""
    ensures exists s :: Arises(env, requests, s) && WrongHit(s, r)
  {
    var t :| Settle(q.call, env.fetch(q, t)).Ok?;
    var ttl := env.ttl(q.call.cacheFor).value;
    var event := Stored(q, t, t, t, Cached(Settle(q.call, env.fetch(q, t)).value, t + ttl));
    assert Honest(env, event);
    hide *;
    HoldingArises(env, requests, event);
    HoldingHits(event, r);
  }

  lemma WrongHitMeansStorable(env: Env, requests: iset<Request>, s: State, r: Request)
    requires Arises(env, requests, s) && WrongHit(s, r)
    ensures exists q :: q in requests && q != r && Storable(env, q) && KeyOf(q) == KeyOf(r)
  {
    ArisenIsConsistent(env, requests, s);
    hide Consistent, Storable, KeyOf, LookUp, Evolves;
    var i: nat :| Newest(s.log, i) && KeyOf(s.log[i].request) == KeyOf(r) && s.log[i].request != r;
    WrongHitSource(env, s, r, i);
    assert s.log[i].request in requests;
  }

  /** The key leaves out the body and the credential, so an entry can answer another request than
      the one it was stored for. As long as answers to these requests only are stored, that can
      happen to a cached request exactly when another one of them that can be stored has its key. */
  lemma WrongHitIff(env: Env, requests: iset<Request>, r: Request)
    requires r.call.cacheFor != ""
    ensures (exists s :: Arises(env, requests, s) && WrongHit(s, r))
       <==> exists q :: q in requests && q != r && Storable(env, q) && KeyOf(q) == KeyOf(r)
  {
    hide *;
    if exists s :: Arises(env, requests, s) && WrongHit(s, r) {
      var s :| Arises(env, requests, s) && WrongHit(s, r);
      WrongHitMeansStorable(env, requests, s, r);
    }
    if exists q :: q in requests && q != r && Storable(env, q) && KeyOf(q) == KeyOf(r) {
      var q :| q in requests && q != r && Storable(env, q) && KeyOf(q) == KeyOf(r);
      StorableCanHitOthers(env, requests, q, r);
    }
  }

  /** What a key holds comes from its newest Store, so a hit was storable. */
  lemma WrongHitSource(env: Env, s: State, r: Request, i: nat)
    requires Consistent(env, s) && LookUp(s, KeyOf(r)).Some? && Newest(s.log, i) && KeyOf(s.log[i].request) == KeyOf(r)
    ensures Storable(env, s.log[i].request)
  {
    assert Backed(s, KeyOf(r));
    var j: nat :| Newest(s.log, j) && KeyOf(s.log[j].request) == KeyOf(r) && s.log[j].value == s.entries[KeyOf(r)];
    hide KeyOf;
    assert i == j;
    assert Honest(env, s.log[i]);
  }

  // ----- The cache object -----

  /** resultCache, a sync.Map: Load, Store and Delete are atomic, and between any two of them
      other goroutines may run. `now` is the wall clock, `own` lists the Stores made through this
      object's methods, and `alone` says that nobody else runs and no time passes. */
  class Cache {
    var entries: map<string, Cached>
    var now: int
    ghost var log: seq<Stored>
    ghost var own: seq<Stored>
    ghost const alone: bool

    ghost function Abs(): State
      reads this
    {
      State(entries, now, log)
    }

    lemma AbsIs()
      ensures Abs() == State(entries, now, log)
    {
    }

    constructor (ghost alone: bool)
      ensures forall env: Env :: Consistent(env, Abs())
      ensures entries == map[] && log == [] && own == [] && this.alone == alone
    {
      entries, log, own, this.alone := map[], [], [], alone;
    }

    /** Any number of steps of other goroutines. */
    method Interfere(ghost env: Env)
      modifies this
      ensures Evolves(env, old(Abs()), Abs()) && own == old(own)
      ensures alone ==> Abs() == old(Abs())
    {
      EvolvesStays(env, Abs());
    }

    method Delete(ghost env: Env, key: string)
      modifies this
      ensures Abs() == old(Abs()).(entries := old(entries) - {key}) && own == old(own)
      ensures Evolves(env, old(Abs()), Abs())
    {
      entries := entries - {key};
      EvolvesByStep(env, old(Abs()), Abs());
    }

    method Store(ghost env: Env, key: string, value: Cached, ghost event: Stored)
      requires Honest(env, event) && event.storedAt == now && event.value == value && KeyOf(event.request) == key
      modifies this
      ensures Abs() == Put(old(Abs()), event) && own == old(own) + [event] && now == old(now)
      ensures Evolves(env, old(Abs()), Abs())
    {
      StoreIsAStep(env, Abs(), event);
      PutIs(Abs(), event);
      hide *;
      entries := entries[key := value];
      log, own := log + [event], own + [event];
    }

    /** cacheGet: load, check expiry, delete if expired. A hit was stored under this very key
        by an honest Store, and had not expired at `checkedAt`. */
    method Get(ghost env: Env, key: string) returns (hit: Option<Entry>, ghost checkedAt: int, ghost source: nat)
      requires Consistent(env, Abs())
      modifies this
      ensures Evolves(env, old(Abs()), Abs()) && own == old(own)
      ensures old(now) <= checkedAt <= now
      ensures hit.Some? ==> source < |log| && Honest(env, log[source]) && KeyOf(log[source].request) == key
      ensures hit.Some? ==> log[source].value.data == hit.value
      ensures hit.Some? ==> log[source].storedAt <= checkedAt <= log[source].value.expiresAt
      ensures alone ==> hit == LookUp(old(Abs()), key) && Abs() == AfterLookUp(old(Abs()), key)
    {
      ghost var s0 := Abs();
      if key !in entries {
        EvolvesStays(env, s0);
        return None, now, 0;
      }
      var loaded := entries[key];
      assert Backed(s0, key);
      ghost var i: nat :| Newest(log, i) && KeyOf(log[i].request) == key && log[i].value == loaded;
      hide Evolves, Consistent, Newest, KeyOf;
      source := i;
      Interfere(env);
      EvolvingKeepsConsistent(env, s0, Abs());
      StoredBefore(env, s0, Abs(), i);
      checkedAt := now;
      if loaded.expiresAt < now {
        ghost var s1 := Abs();
        Interfere(env);
        EvolvesTransitive(env, s0, s1, Abs());
        EvolvingKeepsConsistent(env, s1, Abs());
        ghost var s2 := Abs();
        Delete(env, key);
        EvolvesTransitive(env, s0, s2, Abs());
        return None, checkedAt, 0;
      }
      hit := Some(loaded.data);
    }

    /** cacheSet for a request answered at `fetchedAt`: the clock is read for the expiry, then the
        entry is stored. */
    method Set(ghost env: Env, request: Request, data: Entry, ttl: int, ghost fetchedAt: int)
        returns (ghost mine: Stored)
      requires fetchedAt <= now
      requires request.call.cacheFor != ""
      requires env.ttl(request.call.cacheFor) == Ok(ttl)
      requires Settle(request.call, env.fetch(request, fetchedAt)) == Ok(data)
      requires Consistent(env, Abs())
      modifies this
      ensures Evolves(env, old(Abs()), Abs())
      // One Store, the last step taken, for this request with this answer, expiring ttl after a
      // clock reading made during the call.
      ensures own == old(own) + [mine]
      ensures mine == Stored(request, fetchedAt, mine.clockAt, now, Cached(data, mine.clockAt + ttl))
      ensures old(now) <= mine.clockAt <= now
      ensures exists before :: Evolves(env, old(Abs()), before) && Abs() == Put(before, mine)
      ensures alone ==>
                Abs() == Put(old(Abs()), Stored(request, fetchedAt, old(now), old(now), Cached(data, old(now) + ttl)))
    {
      hide *;
      AbsIs();
      ghost var s0 := Abs();
      var expiresAt := now + ttl;
      ghost var clockAt := now;
      Interfere(env);
      assert own == old(own);
      ghost var s1 := Abs();
      EvolvingKeepsConsistent(env, s0, s1);
      AbsIs();
      assert s0.now == clockAt && s1.now == now;
      mine := Stored(request, fetchedAt, clockAt, now, Cached(data, expiresAt));
      StoredIsHonest(env, mine, ttl);
      Store(env, KeyOf(request), Cached(data, expiresAt), mine);
      EvolvesTransitive(env, s0, s1, Abs());
    }
  }

  lemma PutIs(s: State, event: Stored)
    ensures Put(s, event) == State(s.entries[KeyOf(event.request) := event.value], s.now, s.log + [event])
  {
  }

  lemma StoredIsHonest(env: Env, event: Stored, ttl: int)
    requires event.fetchedAt <= event.clockAt <= event.storedAt
    requires event.request.call.cacheFor != ""
    requires env.ttl(event.request.call.cacheFor) == Ok(ttl) && event.value.expiresAt == event.clockAt + ttl
    requires Settle(event.request.call, env.fetch(event.request, event.fetchedAt)) == Ok(event.value.data)
    ensures Honest(env, event)
  {
  }

  lemma StoreIsAStep(env: Env, s: State, event: Stored)
    requires Honest(env, event) && event.storedAt == s.now
    ensures Evolves(env, s, Put(s, event))
  {
    assert StoreStep(s, Put(s, event), event);
    EvolvesByStep(env, s, Put(s, event));
  }

  /** A stored event is honest, past and still there later. */
  lemma StoredBefore(env: Env, s: State, s': State, i: nat)
    requires Consistent(env, s) && i < |s.log| && s.log <= s'.log && s.now <= s'.now
    ensures i < |s'.log| && s'.log[i] == s.log[i] && Honest(env, s.log[i]) && s.log[i].storedAt <= s'.now
  {
  }
}
