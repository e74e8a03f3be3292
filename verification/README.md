# Orkestra, modelled in Dafny

Orkestra is a Kubernetes operator runtime: a Katalog declares custom resources, and the runtime
reconciles them, makes external calls, reads back and enriches the child objects, records events and
reports health. This project models the parts of it that carry an algorithm or a protocol, and proves
what each of them promises for every input, every run or every interleaving.

`dafny verify dfyconfig.toml` checks everything. The modules, by the part they model:

| part | modules |
|---|---|
| external calls and their shared TTL cache | `ExternalCalls`, `CallLaws`, `ResultCache`, `LoneRunner`, `ExternalRunner`, `ExternalConfiguration`, `ExternalValidation` |
| event recorder and its shutdown | `EventRecorder` |
| two-phase enrichment of child objects | `EnrichmentIndex`, `Enrichers`, `ChildReader` |
| dependency graph, startup order, tree view | `DependencyGraph`, `StartupOrder`, `DependencyTree` |
| rolling latency statistics | `LatencyWindow`, `HealthStats` |
| YAML pruner | `YamlPrune`, `YamlNodes` |
| `forEach` expansion | `ForEach` |
| notes parser and code-fence fixer | `NotesParser`, `CodeFences` |
| shared | `Common`, `Values`, `Text`, `Sorting`, `StringOrder` |

## How the outside is modelled

* A call to code this model does not contain is a function-valued field: template resolution, condition
  evaluation, credential lookup and duration parsing (`ExternalCalls.Env`), the API server and gate
  evaluation (`Enrichers.Api`, `ChildReader.Cluster`), item-scoped resolvers (`ForEach.Resolvers`).
* A backend is a function of the request and of the instant at which it is asked. The API server that
  enrichers ask is a fixed snapshot.
* The cache is shared: between any two atomic operations on it (`Load`, `Delete`, `Store`, reading the
  clock) other goroutines may take any number of legal steps (`ResultCache.Evolves`).
* The event recorder is a state machine whose steps are the single lock, WaitGroup, channel and `go`
  operations of any number of `Eventf` and `Shutdown` calls and of one `Start`.
* Where Go ranges over a map, the model picks an arbitrary remaining key. Results that do not depend on
  the choice are equated with a function; where they do depend on it, a lemma says exactly when.
* Classes stand where the source updates objects in place: the result map and the cache, the child
  objects that plural and singular share, YAML nodes, the tree printer, the statistics, the notes
  parser and the file of the fence fixer. Each method ties its new state to a function of the old one.

## Where the code differs from its own documentation, or from what one would expect

* `GetDependents` (pkg/katalog/dependencies.go:169-180) is documented to return the CRDs that depend on
  a CRD. The edges are keyed by the dependency, and it returns the keys whose list holds the name: the
  dependencies. The tree view therefore prints the CRDs without dependencies and nothing below them
  (`ViewIsTheRoots`), and shows every CRD exactly when no CRD depends on another
  (`ViewShowsEverythingIff`). For acyclic declarations `GetDependents` does what it is documented to do
  exactly for a CRD with neither dependencies nor dependents (`GetDependentsIsRightIff`); for `b` depending
  on `a` it answers nothing for `a`, and `a` for `b` (`GetDependentsIsReversed`). With edges that lead to
  the dependents the view would show every CRD (`TrueDependentsShowEverything`).
* Body and credential are not part of the cache key (pkg/external/protocol.go:50-52; its parts are
  separated by NULs, not by the slashes of the comment above it), so an entry can answer another request
  than the one it was stored for. In a cache that holds answers to the requests of a configuration this
  can happen to a cached request exactly when another storable request of the configuration has its key
  (`WrongHitIff`); when call names are distinct and no NUL gets into the key, exactly when the same call
  resolves, for other data, to the same url and query and to another body (`WrongHitIffBodiesDiffer`).
  `OtherBodyIsAWrongHit` has two runs of one call, of which the second reports the answer to the first
  one's body. Configurations in which url and query determine the body have no wrong hits (`FixedIff`,
  `FixedMeansNoWrongHit`); there are both kinds (`StaticBodyIsFixed`, `BodyFromDataCollides`).
* `ExternalRunner.Run` is stated for all configurations. With distinct names its report is that of the
  run that fetches every call at its own instant exactly when every answer it used is what a fetch for
  that request leaves then, and so whenever that holds of every answer it could have been served. In a
  fixed configuration, whose cache only its own goroutines write, it is enough that stored answers stay
  current for the request they were stored for (`ConfiguredRunAgrees`).
* A stored answer may be served from its store to its expiry, and the expiry is counted from after the
  fetch. Serving it at an instant of that window is safe exactly when a fetch would leave the same
  answer then; otherwise one store and the passing of time lead to a cache from which a run reports
  something else than the fetching run (`ServingIsSafeIff`). Steadiness for `cacheFor` from the fetch is
  not enough (`CacheForIsNotTheWindow`).
* The result map is put into the template data by reference, and only when a call executes: a skipped
  call's zero result reaches templates exactly when some call of the run executed
  (`SkippedResultVisibleIffSomethingRan`).
* `objectOwnedByUID` is documented to ask for a controller reference; the code does not look at
  `controller`. The two agree exactly when no owner reference has the uid or one that has it controls
  (`OwnedByUidMeetsCommentIff`, with `OwnedWithoutController` where they do not); the ReplicaSets they
  disagree about are embedded all the same (`EmbeddedButNotControlled`).
* A timed-out shutdown can close the broadcaster before an accepted event is handed to the recorder
  (`TimeoutCanCloseUnderAWorker`). After a stop an event can still be handed exactly when some accepted
  call's worker has not looked at the recorder yet, or has found it and not called it yet
  (`HandsLaterIff`); right after the broadcaster went down that is impossible on the done branch and
  decided by those calls on the timeout branch (`ClosingLosesIff`).
* One pruning pass is not idempotent; `OnePassIsEnoughIff` gives the exact condition.
* The reported minimum latency uses 0 for "unset", so 5, 0, 7 reports 7 (`MinimumForgetsBeforeAZero`);
  `RunningMinIsMinimumIff` gives the exact condition under which it is the minimum.
* Whether an enrichment spelling such as `pvcs`, which belongs to two kinds, is on can depend on the
  iteration order of a Go map at start-up; `OrderIrrelevantIff` gives the exact condition.
* Groups that the second enrichment phase omits miss their conditional targets
  (`OmittedGroupCanMissWarnings`); `OmittedGroupAgreesIff` gives the exact condition under which nothing
  is missed.
* The notes generator is documented to take the first paragraph of a section as the description and the
  first code block as the example (hack/generate-notes/main.go:19-22). It takes all prose before the
  first fence, title or separator, and all code, or none if a title or separator comes before it: later
  paragraphs and later blocks are joined to the first, blocks under a later `## ` title included
  (`SecondParagraphJoins`, `CodeUnderALaterTitleJoins`). `DescriptionIsFirstParagraphIff` and
  `ExampleIsFirstBlockIff` say of an entry's two fields exactly when they are what is documented. A
  paragraph that follows a title or the code is not found: pkg/note/docs/05-cron.md:179-183 puts a title
  above the paragraph of `cronValid`, and the catalog has no description and no example for it
  (`TextUnderATitleIsLost`, `TextBelowTheCodeIsLost`).
* The fence fixer is documented to leave closing fences unchanged (scripts/fix-bare-fences.py:8). It does
  not see an opening fence without a word after the backticks, such as ```` ```{r} ````, and then takes
  the closing fence for an opening one (`ClosingFenceIsRewritten`). `RewritesTheOpeningsIff` says for which
  files it rewrites just the bare fences that open a block.

## Model

| member | source | states |
|---|---|---|
| ExternalCalls.FailedRunStopsSomewhere | pkg/external/runner.go:42-130 | a run reports an error iff there is one call before which all went well and at which it ended |
| ExternalCalls.NothingAfterTheStop | pkg/external/runner.go:42-130 | the report of a run that stops at call k is that of step k whatever calls are declared after it; nothing later is requested or gets a result |
| ExternalCalls.ResultsAreNeverOverwritten | pkg/external/runner.go:44-101 | with distinct names, every result and request of a prefix of the calls is unchanged at the end |
| ExternalCalls.LaterCallsSeeExecutedResults | pkg/external/runner.go:21-23 | the settled answer of an executed call is under `external` in the data every later call is resolved with |
| ExternalCalls.FailedCallKeepsItsEntry | pkg/external/runner.go:109-122 | a call reported as failed still has its own entry, with the reported error text, in the returned data |
| ExternalCalls.SkippedResultVisibleIffSomethingRan | pkg/external/runner.go:43-50 | a skipped call holds the zero result of its protocol, and templates see it iff some call of the run executed |
| ExternalCalls.UnresolvableCallLeavesNoTrace | pkg/external/runner.go:52-67 | a run reports an error about url, query, body or credential only for a due call of which one of the four fails, and its report is otherwise that of the calls before: no request, no result |
| ExternalCalls.UnresolvableCallStops | pkg/external/runner.go:52-67 | a run that comes to such a call reports an error with its index |
| ExternalCalls.StoppedAnsweredRun | pkg/external/runner.go:42-130 | however its requests are answered, the report of a run that stops is that of the calls up to the stop |
| ExternalCalls.AnswersAreTold | pkg/external/runner.go:69-115 | with distinct names, the report of a run whose requests are answered in whatever way tells every answer: its entry, or the error it stopped with |
| ExternalCalls.AgreesIffCurrent | pkg/external/runner.go:42-130 | so such a run reports what fetching each call at its instant reports iff every answer is what a fetch for that request leaves then |
| CallLaws.CallIsSentIff | pkg/external/runner.go:42-83 | of any run that comes to call k: k is requested iff it is due and url, query, body and credential can all be had, and then with just those values |
| CallLaws.CallNotDue | pkg/external/runner.go:43-50 | a call that is not due ends in no error, is not requested and has the zero result of its protocol |
| CallLaws.FirstFailedLookupIsReported | pkg/external/runner.go:52-67 | a due call of which a lookup fails ends the run with the kind, index and message of the first that fails in the order url, query, body, credential, and nothing else changes |
| CallLaws.AnswerIsRecorded | pkg/external/runner.go:81-125 | an answer with an entry leaves the entry, and an error iff the entry tells one and the call does not continue on errors; an answer without one leaves the error alone |
| CallLaws.FetchIsSettled | pkg/external/runner.go:81-91 | an error of the backend becomes an entry with its text if the call continues on errors |
| CallLaws.FetchedCallIsTheBackends | pkg/external/runner.go:81-83 | in the fetching run the answer of a call that is sent is that of the backend for just that request at its instant |
| CallLaws.TemplatesSee | pkg/external/runner.go:107-111 | the data of every call is the data given, with every result so far under `external` as soon as some call was sent |
| ResultCache.CacheKeyInjective | pkg/external/protocol.go:50-52 | with NUL-free gvk, name and url, equal cache keys mean equal parts |
| ResultCache.KeyIsSharedIff | pkg/external/protocol.go:50-52 | a quadruple shares its key with another one iff one of its four parts holds a NUL |
| ResultCache.WrongHitIff | pkg/external/protocol.go:50-65 | some cache that arises from an empty one by storing answers to requests of a given set answers a cached request with the entry of another one iff another storable request of the set has the same key |
| ResultCache.StepKeepsConsistent | pkg/external/protocol.go:54-72 | every atomic step of any goroutine keeps: each cached value is that of the newest store under its very key, and every store was honest |
| ResultCache.EvolvingKeepsConsistent | pkg/external/protocol.go:54-72 | the same over whole interleavings; stores are never forgotten and time does not run back |
| ResultCache.DeleteCanDropAFreshEntry | pkg/external/protocol.go:60-62 | a delete racing a fresh store can remove the fresh entry, causing a miss |
| ResultCache.Cache.Get | pkg/external/protocol.go:54-65 | under interference at every point, a hit was stored by an honest store under this very key and had not expired when checked |
| ResultCache.Cache.Set | pkg/external/protocol.go:67-72 | ends with one store, of this answer under the key of this request, that expires ttl after a clock reading made in between; others may run before it |
| LoneRunner.ServingIsSafeIff | pkg/external/runner.go:69-79 | for a stored answer, a request with its key and an instant between store and expiry: every cache that can serve it makes the run report what a fetching run would iff a fetch for that request would leave that answer; if not, a reachable cache is given that serves it and a run that differs |
| LoneRunner.CacheForIsNotTheWindow | pkg/external/runner.go:93-98 | with a backend steady for `cacheFor` from the fetch, a reachable cache can still make a run report a stale answer |
| LoneRunner.StoppedCachedRun | pkg/external/runner.go:42-130 | report and cache of an undisturbed run that stops are those of the calls up to the stop, so nothing later is fetched or cached |
| LoneRunner.MissIsFetchedAndStored | pkg/external/runner.go:72-98 | a cached call that misses reports what fetching reports, and stores the answer under its key for its `cacheFor`, errors that have an entry included; no other entry changes |
| LoneRunner.StoredAnswerIsServedUntilExpiry | pkg/external/protocol.go:54-72 | from then on runs of the call are given that answer up to the instant of its expiry and what a fetch gives after it |
| LoneRunner.NothingIsStored | pkg/external/runner.go:93-98 | a call without `cacheFor` neither looks at the cache nor writes to it; an unusable duration or an error without entry stores nothing |
| LoneRunner.OtherBodyIsAWrongHit | pkg/external/runner.go:72-79 | for any call that declares `cacheFor` and has its own body template: two runs, starting from an empty cache, whose data give it different bodies, and the second one reports the answer to the first one's body |
| ExternalRunner.CachedRunAgreesWithFetching | pkg/external/runner.go:69-99 | while every answer that can be served to a request of the run is what a fetch for it would leave, the run reports the same results, error and requests as fetching each call at its own instant |
| ExternalRunner.FetchAndStore | pkg/external/runner.go:81-99 | the settled answer of now; at most one Store, for this request and with this answer |
| ExternalRunner.Obtain | pkg/external/runner.go:69-99 | for any request, the entry is the settled answer of a fetch for it, or an entry stored under its key by then and not expired, the latter only if it declares `cacheFor`; at most one Store; the cache only takes legal steps |
| ExternalRunner.RunPrepared | pkg/external/runner.go:69-130 | with the shared result map and cache, what follows the preparation of a call records the answer it got and nothing else |
| ExternalRunner.RunCall | pkg/external/runner.go:42-130 | one iteration with the shared result map and the shared cache is one step of a run with that answer; no request, no Store |
| ExternalRunner.Run | pkg/external/runner.go:28-133 | for all calls and in every interleaving, data and error are those of a run whose answers are each fetched or served from the cache at an instant of the run; with distinct names this is the run that fetches iff those answers are current; this run makes at most one Store for each call it reports as requested, in order, of what was fetched at its instant, and none after a stop; undisturbed, report and cache are a function of the cache it started from; the cache stays consistent and the resolver passed in is unchanged |
| ExternalConfiguration.RunSendsDeclared | pkg/external/runner.go:52-67 | every cached request of a run of declared calls, however answered, is one that its call sends for some data |
| ExternalConfiguration.KeyTellsRequestsApart | pkg/external/runner.go:73 | in a fixed set of requests the cache key identifies the request |
| ExternalConfiguration.FixedMeansNoWrongHit | pkg/external/runner.go:72-79 | while only requests of a fixed set are stored, none of them is answered by another's entry |
| ExternalConfiguration.WrongHitIffBodiesDiffer | pkg/external/protocol.go:50-65 | with distinct call names and NUL-free key parts, a request of a configuration can be answered by another's entry iff its call, for other data, sends a storable request with the same url and query and another body |
| ExternalConfiguration.BodyFromDataCollides | pkg/external/runner.go:60-73 | a configuration of one call whose body depends on the data, with two such requests |
| ExternalConfiguration.StaticBodyIsFixed | pkg/external/runner.go:60-73 | a configuration of one call whose url and body do not is fixed, and its answers can be stored |
| ExternalConfiguration.StaysWithin | pkg/external/runner.go:93-98 | a cache of a configuration's requests stays one when the requests of the run and the Stores of the other goroutines are such requests |
| ExternalConfiguration.SteadyIsEnough | pkg/external/runner.go:69-79 | in a fixed set of requests it is enough for the agreement that stored answers stay current for the request they were stored for |
| ExternalConfiguration.ConfiguredRunAgrees | pkg/external/runner.go:28-133 | for a run of a fixed configuration, while the other goroutines store answers to its requests and stored answers stay current, what Run promises of its report makes it the report of fetching each call at its own instant |
| ExternalValidation.ValidateCalls | pkg/external/validate.go:12-28 | accepts exactly the lists with distinct nonempty names and valid calls; otherwise reports the first faulty call, where duplicates are faults of the later call |
| ExternalValidation.FirstComplaintIsReported | pkg/external/validate.go:30-162 | a call is valid iff none of fourteen complaints applies, and otherwise the first that applies in the order of the source is reported |
| ExternalValidation.FaultIs | pkg/external/validate.go:14-26 | an empty name is reported by place, a duplicate by name, anything else by place and first complaint |
| ExternalValidation.AcceptableIffFaultless | pkg/external/validate.go:12-28 | a list is acceptable iff no call is faulty seen only against those before it |
| ExternalValidation.AcceptedListsRunClean | pkg/external/validate.go:10-28 | in a run of an accepted list no result is overwritten and every `cacheFor` has a duration |
| EventRecorder.InvStep | pkg/event/event.go:61-128 | every atomic step keeps mutual exclusion, the counter, the once-each history and the order of happenings, that nobody is refused before a stop, and that nobody calls a nil recorder |
| EventRecorder.RunKeepsInv | pkg/event/event.go:61-128 | the same along every run |
| EventRecorder.RefusedMeansStopped | pkg/event/event.go:87-91 | no call is refused unless a stop came first |
| EventRecorder.FlagDecides | pkg/event/event.go:88-93 | a call that reads the flag can always do so, and passes iff no stop came before, whatever is in flight |
| EventRecorder.PassedIsAccepted | pkg/event/event.go:92 | having passed it is accepted by its next operation, which nothing blocks |
| EventRecorder.NeverRefusedAfterPassing | pkg/event/event.go:87-93 | along every run a call that has passed is never refused |
| EventRecorder.RecorderDecides | pkg/event/event.go:98-100 | a worker finds the recorder iff it has been set, and drops the event otherwise |
| EventRecorder.HandedMeansRecorderSet | pkg/event/event.go:98-100 | every event handed over was handed after the recorder had been set |
| EventRecorder.CallsAreNotHeldUp | pkg/event/event.go:87-101 | only the mutex can make an Eventf call or its worker wait |
| EventRecorder.ShutdownsAreNotHeldUp | pkg/event/event.go:104-126 | a shutdown waits for the mutex and then for the done channel or the timeout; its waiter can return iff every accepted event has finished |
| EventRecorder.BranchIsRemembered | pkg/event/event.go:118-127 | the branch taken decides how the broadcaster is closed, which happens iff Start has made one |
| EventRecorder.HolderCanGoOn | pkg/event/event.go:87-109 | whoever holds the mutex can take its next operation |
| EventRecorder.FlushedShutdownLosesNothing | pkg/event/event.go:104-127 | on the done branch, every event ever accepted was accepted, handed or dropped, and finished exactly once before the broadcaster went down, and handed if the recorder was set before it was accepted |
| EventRecorder.NotDroppedAfterStart | pkg/event/event.go:98-100 | no event accepted after the recorder was set is dropped |
| EventRecorder.CounterBalances | pkg/event/event.go:92-97 | in every reachable state the WaitGroup counter is accepted minus finished, and the rest is in flight, also on the timeout branch |
| EventRecorder.StoppedFreezesAccepted | pkg/event/event.go:86-116 | once stopped, no step adds to the WaitGroup or to the accepted events, and each step of an accepted call lowers the remaining work by one |
| EventRecorder.StoppedRunsWindDown | pkg/event/event.go:95-116 | along every run from a stopped state, work done plus work remaining is constant and the accepted set stays |
| EventRecorder.WaitCanAlwaysEnd | pkg/event/event.go:111-116 | from every stopped state some run of exactly the remaining operations brings the counter to zero, where every waiter can return |
| EventRecorder.HandsLaterIff | pkg/event/event.go:95-101 | in a stopped state, some continuation hands an event to the recorder iff the worker of some accepted call has not looked at the recorder yet, or has found it and not called it yet |
| EventRecorder.ClosingLosesIff | pkg/event/event.go:118-127 | right after a broadcaster went down, an event can still be handed to its recorder iff there was such a call: never on the done branch |
| EventRecorder.TimeoutCanCloseUnderAWorker | pkg/event/event.go:118-127 | after a timeout a worker that has found the recorder can hand its event to it although the broadcaster was shut down in between |
| EnrichmentIndex.BuildEnrichmentGroups | pkg/children/builtins_accessors.go:166-195 | a target kind's group is its name, plural, lower-cased shorthands and synthetic keys, sorted, whatever the map order |
| EnrichmentIndex.GroupHolds | pkg/children/builtins_accessors.go:166-195 | what a group holds: the name, the plural if there is one, each shorthand in small letters, the synthetic keys, and nothing else, in ascending order |
| EnrichmentIndex.BuildIndex | pkg/children/builtins_accessors.go:151-160 | the index is the one some enumeration of all groups builds, the last group to hold a spelling winning |
| EnrichmentIndex.IndexLeadsToAGroup | pkg/children/builtins_accessors.go:151-160 | a spelling is in the index iff some group holds it, and the index leads to a group that does |
| EnrichmentIndex.EnabledMeans | pkg/children/enrich_helper.go:20-36 | an enrichment is on iff all are, its spelling is requested, or a spelling of the group the index leads to is |
| EnrichmentIndex.EnabledIffGroupRequested | pkg/children/enrich_helper.go:20-36 | for a spelling of exactly one group, enabled iff some spelling of that group is requested, in whatever order the index was built |
| EnrichmentIndex.AliasesAgree | pkg/children/enrich_helper.go:16-36 | two spellings of a group disjoint from the others always get the same answer |
| EnrichmentIndex.OrderIrrelevantIff | pkg/children/builtins_accessors.go:154-158 | the answer for a spelling is independent of the map order iff all groups that hold it have the same spellings |
| EnrichmentIndex.PvcsDependsOnIterationOrder | pkg/children/builtins.go:78-86 | with the built-in rows for claims and stateful sets, the answer for `pvcs` does depend on it |
| Enrichers.EnrichersAreDisjoint | pkg/children/children.go:336-423 | no two enrichers of a group write the same key |
| Enrichers.EnricherIsFor | pkg/children/children.go:358-423 | which kinds each enricher is for; warnings are for every kind under its own name |
| Enrichers.KeysAreAskedFor | pkg/children/enrich_pods.go:22 | which target has to be requested for each key that is written |
| Enrichers.KeysAreWrittenBy | pkg/children/enrich_pods.go:65 | which enricher may write each key |
| Enrichers.PodsAreWritten | pkg/children/enrich_pods.go:43-66 | an object gets the pods that the API lists for its match labels in its namespace; none without labels or when the API fails |
| Enrichers.SummariesInOrder | pkg/children/enrich_pods.go:58-64 | the pods embedded keep the order of the list |
| Enrichers.OneSummary | pkg/children/enrich_pods.go:58-64 | a pod is embedded iff some owner reference in its metadata has the kind |
| Enrichers.ReplicaSetsAreWritten | pkg/children/enrich_replicasets.go:62-99 | an object with namespace and uid gets the ReplicaSets of its namespace that it owns, if any |
| Enrichers.OneReplicaSet | pkg/children/enrich_replicasets.go:88-95 | a ReplicaSet is embedded iff some owner reference in its metadata has the uid, with its owner added |
| Enrichers.FirstControllerIsTheOwner | pkg/children/enrich_replicasets.go:24-55 | the owner is the name, kind and uid of the first reference that controls |
| Enrichers.WritesOwnKeys | pkg/children/enrich_pods.go:43-66 | an enricher writes its own keys only, none of which any enricher reads |
| Enrichers.WritesFromSource | pkg/children/enrich_replicasets.go:34-100 | what an enricher embeds depends on metadata, spec and status only |
| Enrichers.ApplyByKey | pkg/children/children.go:336-423 | after a group's enrichers, each key holds what the one enabled enricher that writes it would write into the object read, or is as it was |
| Enrichers.TwoPhasesAreOne | pkg/children/children.go:40-59 | enriching for one set of targets and then the result for another is enriching once for both |
| Enrichers.OmittedGroupAgreesIff | pkg/children/children.go:336-423 | an object of a group the second phase omits is as one pass would leave it iff warnings were on already, are not newly requested, or there are none to write |
| Enrichers.OmittedGroupCanMissWarnings | pkg/children/children.go:336-423 | a network policy whose conditionally requested warnings are missing |
| Enrichers.EmbeddedButNotControlled | pkg/children/enrich_replicasets.go:88-98 | more ReplicaSets are embedded than the comment allows iff one of them is owned and not controlled |
| Enrichers.OwnedWithoutController | pkg/children/enrich_replicasets.go:148-166 | an object on which code and comment disagree |
| ChildReader.FewerIffConditional | pkg/children/children.go:337 | the length test that guards phase 2 holds iff some target is conditional |
| ChildReader.RunEnricher | pkg/children/enrich_pods.go:21-38 | in any map order, each object of the group gets the enricher's writes from its own contents, and none if the target is off |
| ChildReader.EnrichGroup | pkg/children/children.go:359-363 | a group's enrichers, run one after the other over shared objects, leave each object as they would leave it alone |
| ChildReader.ReadGroup | pkg/children/read.go:21-31 | one new object for everything found, no object in two places |
| ChildReader.FirstValue | pkg/children/read.go:187-195 | the singular is an object of the group by reference, or a new placeholder |
| ChildReader.ReadAll | pkg/children/children.go:90-324 | after phase 1 every declared group holds its objects enriched for the request, each singular being one of them |
| ChildReader.SecondPhase | pkg/children/children.go:358-423 | each object of a covered group is enriched in place from its current contents; no other object changes |
| ChildReader.WholeRequestIff | pkg/types/methods.go:123-150 | a target is asked of a kind iff all are, it has no conditions, or its gate is open on the view and the kind is one the second phase goes over |
| ChildReader.ReadChildren | pkg/children/children.go:59-350 | every object ends with what the enrichers of just the targets asked for write into it as found: those without conditions, and, for the kinds the second phase goes over, those whose gate is open; gates see every object with what the targets without conditions write; the singular is one of those objects |
| DependencyGraph.NewDependencyGraph | pkg/katalog/dependencies.go:41-71 | succeeds iff every dependency is declared, and then edges, in-degrees and out-degrees are those of the declarations |
| DependencyGraph.GetDependents | pkg/katalog/dependencies.go:169-180 | lists every key whose edge list holds the name, once each, in some order |
| DependencyGraph.DependentsAreDependencies | pkg/katalog/dependencies.go:169-180 | for the graph as built, these are the dependencies of the CRD, not its dependents |
| StartupOrder.StartupOrder | pkg/katalog/dependencies.go:79-135 | returns an order iff the dependencies are acyclic; it lists every CRD once, each being the least one ready at its turn |
| StartupOrder.StartupOrderIsUnique | pkg/katalog/dependencies.go:73-75 | there is at most one such order, so it is deterministic |
| StringOrder.AtMostIff | pkg/katalog/dependencies.go:73-75 | names are ordered by the first character in which they differ, a prefix first |
| StartupOrder.DependenciesStartFirst | pkg/katalog/dependencies.go:73-74 | every dependency comes before its dependents |
| StartupOrder.IndependentCrdsStartByName | pkg/katalog/dependencies.go:95-125 | CRDs that depend on nothing start in ascending order of their names |
| StartupOrder.StartupOrderMeansAcyclic | pkg/katalog/dependencies.go:127-129 | an order exists only if the dependencies are acyclic |
| StartupOrder.GetDependentsIsRightIff | pkg/katalog/dependencies.go:169-180 | for acyclic declarations, GetDependents returns the dependents of a CRD iff it has neither dependencies nor dependents |
| StartupOrder.GetDependentsIsReversed | pkg/katalog/dependencies.go:169-180 | of two CRDs, one depending on the other, GetDependents gets both wrong |
| DependencyTree.VisitCovers | cmd/cli/helper.go:327-366 | a visit, on any graph, expands exactly the unprinted declared names reached below it, once each, and closes the printed set under edges |
| DependencyTree.TreeShowsWhatIsReached | cmd/cli/helper.go:307-366 | after all roots the printed names are exactly the declared CRDs reached from the roots, each expanded once; the lines are the roots plus the declared out-edges of the expanded names |
| DependencyTree.FirstLine | cmd/cli/helper.go:327-345 | a declared CRD has a line with its name, group and version, an undeclared one none |
| DependencyTree.ChildLine | cmd/cli/helper.go:346-366 | below a CRD each declared child has its line, drawn one level deeper |
| DependencyTree.ConnectorIs | cmd/cli/helper.go:350-363 | a corner for the last child, a tee for the others, and the condition unless it is to be started |
| DependencyTree.TrueDependentsShowEverything | cmd/cli/helper.go:307-366 | with edges to the dependents, the view of an acyclic graph would show every CRD |
| DependencyTree.ViewIsTheRoots | cmd/cli/helper.go:307-366 | with the graph as built, the lines of the view are those of the CRDs without dependencies, in startup order |
| DependencyTree.ViewShowsEverythingIff | cmd/cli/helper.go:307-366 | so it shows every CRD iff no CRD depends on another |
| DependencyTree.TreePrinter.PrintGraphNode | cmd/cli/helper.go:327-366 | terminates on every graph, cyclic ones included, and prints the lines and marks the names of the depth-first walk, whatever the order of the dependents |
| DependencyTree.TreePrinter.PrintDependencyTree | cmd/cli/helper.go:307-322 | prints the walk from the CRDs without dependencies in startup order |
| LatencyWindow.PercentileIsOrderStatistic | pkg/health/admission_stats.go:219-226 | the percentile is a sample with at most the fraction num/den of the samples below it, and more than that fraction, or all, up to it |
| LatencyWindow.RankIsGreatest | pkg/health/admission_stats.go:222-225 | the rank is the greatest index that is at most the fraction of the size |
| LatencyWindow.WindowIsNewest | pkg/health/admission_stats.go:211-220 | the window is the last min(n, size) samples |
| LatencyWindow.QuotientTruncates | pkg/health/admission_stats.go:192 | the average is the sum divided with truncation toward zero |
| LatencyWindow.PercentileIgnoresRotation | pkg/health/admission_stats.go:219-226 | rotating the samples does not change it |
| LatencyWindow.RunningMaxIsMaximum | pkg/health/admission_stats.go:99-101 | with durations that are not negative the reported maximum is the maximum |
| LatencyWindow.RunningMinIsMinimumIff | pkg/health/admission_stats.go:102-104 | the reported minimum is the minimum iff no sample was zero or the newest one is |
| LatencyWindow.MinimumForgetsBeforeAZero | pkg/health/admission_stats.go:102-104 | the samples 5, 0, 7 are reported with the minimum 7 |
| LatencyWindow.ReportIsOrdered | pkg/health/admission_stats.go:191-205 | whatever the durations, average and percentile are at most the maximum; for durations that are not negative they are at least the minimum wherever the reported minimum is the minimum |
| LatencyWindow.RefinesStep | pkg/health/admission_stats.go:105-109 | recording keeps: index is the count modulo the size, filled iff all round, and the ring holds the newest samples |
| LatencyWindow.SlotHoldsNewest | pkg/health/admission_stats.go:105-109 | slot i holds the newest sample whose number is i modulo the size |
| LatencyWindow.ReadPartIsWindow | pkg/health/admission_stats.go:211-220 | the percentile of the part of the ring that is read is that of the last min(n, size) samples |
| HealthStats.LatencyTrack.Record | pkg/health/admission_stats.go:97-110 | the history grows by the sample, and total, maximum, minimum and ring still tell it |
| HealthStats.LatencyTrack.PercentileOf | pkg/health/conversion_stats.go:100-125 | gives the sample at the fraction num/den of the last min(n, size) samples of the history, and 0 without samples |
| HealthStats.LatencyTrack.Average | pkg/health/conversion_stats.go:89-91 | the mean of the whole history, truncated toward zero, for the number of samples its callers pass |
| HealthStats.AdmissionStats.RecordValidationAllowed | pkg/health/admission_stats.go:69-75 | one more allowed sample in the validation history, and nothing else changes |
| HealthStats.AdmissionStats.RecordValidationDenied | pkg/health/admission_stats.go:78-84 | one more denied sample in the validation history, and nothing else changes |
| HealthStats.AdmissionStats.RecordValidationWarned | pkg/health/admission_stats.go:87-93 | one more warned sample in the validation history, and nothing else changes |
| HealthStats.AdmissionStats.RecordMutationApplied | pkg/health/admission_stats.go:115-121 | one more applied sample in the mutation history, and nothing else changes |
| HealthStats.AdmissionStats.RecordMutationSkipped | pkg/health/admission_stats.go:124-130 | one more skipped sample in the mutation history, and nothing else changes |
| HealthStats.AdmissionStats.GetStats | pkg/health/admission_stats.go:176-206 | counts add up to the number of samples, and the latencies shown are those of the histories |
| HealthStats.ShownPercentile | pkg/health/admission_stats.go:195-203 | the 95th percentile shown is that of the newest samples: at most 95 in 100 of them below it, more than that or all up to it |
| HealthStats.ShownExtremes | pkg/health/admission_stats.go:190-203 | the average shown is that of the whole history, truncated; the maximum shown is its maximum |
| HealthStats.MsFloatIs | pkg/health/admission_stats.go:229-233 | a duration is shown in whole microseconds, truncated toward zero |
| HealthStats.ConversionStats.RecordSuccess | pkg/health/conversion_stats.go:44-65 | one more sample; failures are not samples |
| HealthStats.ConversionStats.RecordFailure | pkg/health/conversion_stats.go:68-74 | one more failure; the samples and successes stay |
| HealthStats.ConversionStats.GetStats | pkg/health/conversion_stats.go:77-97 | successes are the samples; average, maximum and minimum are those of the history, and the percentile is the sample at 95 in 100 of the newest ones |
| HealthStats.ShownIsOrdered | pkg/health/admission_stats.go:191-233 | in milliseconds too: no snapshot shows an average or percentile above its maximum, nor below the minimum where that is the minimum |
| YamlPrune.PassesConverge | cmd/cli/yaml_prune.go:17-48 | as many passes as the tree is high, or more, give the bottom-up prune that tests emptiness after recursing |
| YamlPrune.BottomUpIsFixpoint | cmd/cli/yaml_prune.go:17-48 | a further pass changes nothing |
| YamlPrune.IsEmptyIff | cmd/cli/yaml_prune.go:50-66 | dropped are scalars spelt as nothing, 0, 0s or null, and sequences and mappings without content |
| YamlPrune.PairsAreFiltered | cmd/cli/yaml_prune.go:28-41 | a pass goes over the pairs of a mapping in order |
| YamlPrune.OnePair | cmd/cli/yaml_prune.go:32-39 | a pair is kept iff its value is not dropped, with its key as it is and its value pruned |
| YamlPrune.ItemsArePruned | cmd/cli/yaml_prune.go:22-26 | every item of a sequence or document is pruned in its place |
| YamlPrune.OnePassIsEnoughIff | cmd/cli/yaml_prune.go:28-41 | a second pass changes nothing iff no kept value is a mapping of empty values only |
| YamlPrune.OnePassCanLeaveWork | cmd/cli/yaml_prune.go:28-41 | a tree on which one pass is not enough |
| YamlPrune.PassesKeepLeaves | cmd/cli/yaml_prune.go:17-66 | any number of passes keeps every non-empty scalar with its path, sequence indices and key order included |
| YamlPrune.PruneKeepsPairs | cmd/cli/yaml_prune.go:31-41 | mappings still hold key/value pairs |
| YamlNodes.YamlNode.PruneNode | cmd/cli/yaml_prune.go:17-48 | rewriting the nodes in place leaves the tree that one pass computes, in the same nodes |
| YamlNodes.YamlNode.PruneMapping | cmd/cli/yaml_prune.go:28-41 | the filtered content of a mapping, some of whose values were pruned on the way, is that of the pass |
| ForEach.SplitFieldPath | pkg/children/foreach.go:619-629 | the pieces of the path between dots |
| Text.JoinUndoesSplit | pkg/children/foreach.go:618-629 | joining the pieces with dots gives the path back, and no piece holds a dot |
| Text.SplitUndoesJoin | pkg/children/foreach.go:618-629 | splitting joined dot-free pieces gives the pieces back |
| Text.TrimIs | hack/generate-notes/main.go:295-296 | trimming takes the white space off both ends and nothing else |
| Text.LowerIs | hack/generate-notes/main.go:377 | lower-casing replaces every capital by its small letter and nothing else |
| ForEach.FollowIff | pkg/children/foreach.go:575-582 | following keys ends where they lead from map to map, a missing key leading to nil and a value that is no map nowhere |
| ForEach.PathAddresses | pkg/children/foreach.go:574-582 | a list or map under dot-free keys is found by the keys joined with dots |
| ForEach.ResolveForEachItems | pkg/children/foreach.go:574-606 | the items of the value at the path: list elements in order, or map keys in ascending order whatever order Go ranged in, or none |
| ForEach.ListItemsAtPath | pkg/children/foreach.go:584-590 | the items at a path that leads to a list are its elements, in order and without values |
| ForEach.MapItemsAtPath | pkg/children/foreach.go:592-603 | the items at a path that leads to a map are its keys in ascending order with their values |
| ForEach.SortedKeysAreUnique | pkg/children/foreach.go:592-597 | sorting any enumeration of a map's keys gives the same list |
| ForEach.AnyHasForEach | pkg/children/foreach.go:633-640 | true iff some source declares forEach |
| ForEach.ExpandForEach | pkg/children/foreach.go:55-77 | on either path the result is the in-order concatenation of the sources' own expansions |
| ForEach.ListCopies | pkg/children/foreach.go:70-73 | if the field leads to a list, copy i is resolved for its i-th element and i |
| ForEach.MapCopies | pkg/children/foreach.go:70-73 | if it leads to a map, copy i is resolved for the i-th key in ascending order, its value unless that is nil, and i |
| ForEach.NoCopies | pkg/children/foreach.go:70-73 | if it leads to anything else, or nowhere, there are no copies |
| ForEach.ExpansionConcat | pkg/children/foreach.go:55-77 | expanding a concatenation is concatenating the expansions |
| ForEach.NoForEachLeft | pkg/children/foreach.go:53-77 | for every source type, whatever else its resolve function does, no element of the result declares forEach |
| ForEach.ExpandingTwiceIsOnce | pkg/children/foreach.go:55-77 | expanding the result again, with any resolver, changes nothing |
| ForEach.UnchangedIffNoForEach | pkg/children/foreach.go:61-63 | the list comes back unchanged iff the fast path applies |
| ForEach.CopiesPerItem | pkg/children/foreach.go:70-73 | a source with forEach gives one copy per list element or map key, and none for any other value |
| ForEach.ResolveMap | pkg/children/foreach.go:98-108 | keys are kept and every value is resolved |
| ForEach.NamespacePerElement | pkg/children/foreach.go:114-135 | the i-th namespace of a list source has name, finalizers and labels resolved for the i-th element |
| ForEach.NamespacePerKey | pkg/children/foreach.go:114-135 | the i-th namespace of a map source has them resolved for the i-th key and its value |
| NotesParser.ExtractNoteNames | hack/generate-notes/main.go:393-409 | the function names among the nonempty backtick-quoted pieces, in order |
| NotesParser.FunctionNameIs | hack/generate-notes/main.go:398-405 | a name without space, dot, bracket or slash that does not begin with a capital |
| NotesParser.FunctionNamesInOrder | hack/generate-notes/main.go:396-407 | such names are taken in order |
| NotesParser.HeadingIs | hack/generate-notes/main.go:59 | the text of a line of three number signs, white space and something |
| NotesParser.MarksAre | hack/generate-notes/main.go:334-377 | what fences, titles, separators and keyword lines look like |
| NotesParser.OutlineIsTheFile | hack/generate-notes/main.go:316-328 | the sections' lines are the file, cut before every accepted heading and nowhere else |
| NotesParser.DocParser.Flush | hack/generate-notes/main.go:291-314 | every open name gets one entry with the buffered text, and the buffers are emptied |
| NotesParser.DocParser.Read | hack/generate-notes/main.go:317-384 | after each line, entries and buffers are those of the outline of the lines read |
| NotesParser.ParseDoc | hack/generate-notes/main.go:269-389 | the entries are those of the sections in file order, each with the description, example and keywords of its own body |
| NotesParser.OneEntryPerName | hack/generate-notes/main.go:320-328 | the entry names are the names of all accepted headings, concatenated in file order |
| NotesParser.NotesSplitAtHeadings | hack/generate-notes/main.go:320-328 | cutting a file before an accepted heading cuts its entries: no text crosses |
| NotesParser.OnlyHeadingsEndAnExample | hack/generate-notes/main.go:334-352 | once a fence was met, no line but an accepted heading ends the entry |
| NotesParser.CodeUnderALaterTitleJoins | hack/generate-notes/main.go:334-352 | code below a later `## ` title is appended to the example |
| NotesParser.ClosedIff | hack/generate-notes/main.go:354-372 | a section ends early iff a title or separator comes before its first fence |
| NotesParser.ExampleIsCode | hack/generate-notes/main.go:338-352 | the example is all lines inside fences, or nothing if the section ends early |
| NotesParser.ExampleIsFirstBlockIff | hack/generate-notes/main.go:21-22 | an entry's example is the trimmed first code block of its section iff the code after that block is blank, or, if the section ends early, the block itself is |
| NotesParser.DescriptionIsProse | hack/generate-notes/main.go:354-384 | the description is all prose before the first fence, title or separator, without keyword lines |
| NotesParser.DescriptionIsFirstParagraphIff | hack/generate-notes/main.go:20-21 | an entry's description is the first paragraph of its section, wherever it stands, iff that paragraph is all the prose before any fence, title or separator, or, if there is no such prose, the section has no paragraph |
| NotesParser.EntryRest | hack/generate-notes/main.go:291-314 | the other fields of an entry: its own name, the domain, and the words of the keyword lines in the prose of its section |
| NotesParser.KeywordLine | hack/generate-notes/main.go:374-383 | the words of a keyword line are what stands between commas after "keywords:" |
| NotesParser.WordsInOrder | hack/generate-notes/main.go:376-381 | in order, without white space around them, in small letters, blank ones left out |
| NotesParser.TextUnderATitleIsLost | pkg/note/docs/05-cron.md:179-183 | the section of `cronValid`, whatever follows: neither its paragraph nor its code reaches the entry |
| NotesParser.TextBelowTheCodeIsLost | hack/generate-notes/main.go:338-352 | a section with its paragraph below its code has an entry without description |
| NotesParser.SecondParagraphJoins | hack/generate-notes/main.go:358-366 | two paragraphs become one description |
| NotesParser.QuotedUndoesQuote | hack/generate-notes/main.go:394 | the backtick-quoted pieces found in a heading are the pieces quoted in it |
| NotesParser.HeadingNamesRoundTrip | hack/generate-notes/main.go:391-409 | a heading that quotes function names yields exactly these names |
| CodeFences.FixLines | scripts/fix-bare-fences.py:33-51 | exactly the bare fences that the pass meets outside a block, by its own reckoning, are rewritten, in place; changed iff there is one |
| CodeFences.ClassifyIs | scripts/fix-bare-fences.py:34-47 | without the white space at its end, a line is a bare fence iff it is three backticks, and a tagged one iff a word character follows them |
| CodeFences.AnyTag | scripts/fix-bare-fences.py:45 | every tag that begins with a word character makes a fence tagged |
| CodeFences.SameStates | scripts/fix-bare-fences.py:33-51 | a second pass is in the same in-block state at every line |
| CodeFences.FixedIsClean | scripts/fix-bare-fences.py:33-51 | after a pass every fence the pass takes for an opening one has a tag, and a second pass changes nothing |
| CodeFences.FixpointIffClean | scripts/fix-bare-fences.py:33-51 | a pass changes nothing iff it meets no bare fence outside a block |
| CodeFences.RewritesTheOpeningsIff | scripts/fix-bare-fences.py:5-8 | no rewritten line is a closing fence, and the bare fences that open a block are just those rewritten, iff the first fence the pass sees after an opening it does not see is never a bare one |
| CodeFences.ClosingFenceIsRewritten | scripts/fix-bare-fences.py:33-51 | the closing fence of a block opened with {r} after the backticks is given the tag |
| CodeFences.WriteWhatWasRead | scripts/fix-bare-fences.py:30-55 | writing the lines read gives the text back |
| CodeFences.ReadWhatWasWritten | scripts/fix-bare-fences.py:30-55 | reading the lines written gives the lines back |
| CodeFences.ReturnAndNewlineAreOne | scripts/fix-bare-fences.py:30-31 | a carriage return and newline are read as one newline |
| CodeFences.ReturnIsANewline | scripts/fix-bare-fences.py:30-31 | a carriage return alone is read as one too |
| CodeFences.SecondRunChangesNothing | scripts/fix-bare-fences.py:29-57 | at the level of the file's text: a second run leaves it character for character, with as many lines as before the first |
| CodeFences.TextFile.Fix | scripts/fix-bare-fences.py:29-57 | reports whether the pass met a bare fence outside a block, and writes the fixed text only then and only without dry run |

## Left out

- ChildReader.ReadChildren: leaves out the branch that synthesises `replicaset` from `_replicaSets` (pkg/children/children.go:115-120), because its objects are shared with the Deployment that embeds them.
- ChildReader.ReadChildren: the repeated blocks, one for each kind, are one loop over a table of kinds; template merging, name resolution and the API reads become the objects found for each kind, and endpoint slices are not among the kinds.
- ChildReader.ReadAll: endpoint slices, which are read for declared Services and not enriched, are not among the kinds.
- Enrichers.WritesOwnKeys: the eleven enrichers other than pods, ReplicaSets and owner are any function of metadata, spec and status, cut to the keys they write in the source.
- Enrichers.WritesFromSource: for the same enrichers this is how they are modelled.
- Enrichers.Writes: pods, ReplicaSets and owners are computed as in the source; the other enrichers are any function of metadata, spec and status into their own keys. A label selector is the map it is built from.
- EventRecorder.InvStep: the recorder and the broadcaster are their happenings only; delivery to the API server and the context passed to `Start` are not modelled.
- ExternalRunner.Run: logging and metrics are left out, and the clients of each protocol are the backend function.
- ExternalValidation.ValidateCalls: errors are their kinds, not their texts.
- DependencyTree.TreePrinter.PrintDependencyTree: the flat list above the tree, colours and table layout.
- StartupOrder.StartupOrder: the once-only caching of the result; exiting the process is the result `None`.
- HealthStats.AdmissionStats.GetStats: the rank uses the exact fraction 95/100 where the source multiplies in floating point; integers are unbounded; the mutex makes each call one atomic step. The fields the two latencies repeat are one class.
- YamlNodes.YamlNode.PruneNode: the nil node, and parsing and printing YAML. Nodes form a tree, as the parser builds them.
- ForEach.ExpandForEach: what the per-kind resolve functions do besides clearing forEach is any function of the item's resolver and the source, except for namespaces, which are spelt out. The volume claim templates of StatefulSets, which the source resolves in a slice shared between the copies, are not modelled.
- NotesParser.ParseDoc: opening and scanning the file; lower-casing is for ASCII. White space for trimming is any predicate.
- CodeFences.TextFile.Fix: white space and word characters are any predicates for which a newline is white space, a backtick is neither, and the letters of the tag are as usual; walking directories is left out.
- The reconcile queue, informers and kordinator, the protocol clients, the OCI registry, the web server and the command line are not part of this model.
- Deletion and namespace protection counters, option parsing and small formatters would add only easy members.
