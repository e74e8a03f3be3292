/** What the enrichers embed in one child object (pkg/children/enrich_*.go), and why running some of
    them in a second pass comes to the same as running all of them in one. */
module Enrichers {
  import opened Common
  import opened EnrichmentIndex
  import opened Values

  datatype GroupKind =
    | Deployments | StatefulSets | ReplicaSets | Customs | Services | Secrets | ConfigMaps | Jobs | CronJobs | Pods
    | ServiceAccounts | Namespaces | Ingresses | HorizontalPodAutoscalers | PersistentVolumeClaims | PersistentVolumes
    | NetworkPolicies | ResourceQuotas | LimitRanges | ClusterRoles | ClusterRoleBindings

  datatype Enricher =
    | WithPods(ownerKind: string) | WithReplicaSets | WithWarnings(kind: string) | WithStatefulSetPvcs | WithOwner
    | WithEndpoints | WithBackingPods | WithCronJobChildren | WithNode | WithIngressData | WithHpaData
    | WithPv | WithStorageClass | WithPvc

  /** The enrichers of a group, in the order both phases run them. */
  function EnrichersOf(kind: GroupKind): seq<Enricher> {
    match kind
    case Deployments => [WithPods("ReplicaSet"), WithReplicaSets, WithWarnings("Deployment")]
    case StatefulSets => [WithPods("StatefulSet"), WithStatefulSetPvcs, WithWarnings("StatefulSet")]
    case ReplicaSets => [WithPods("ReplicaSet"), WithOwner, WithWarnings("ReplicaSet")]
    case Customs => [WithWarnings("")]
    case Services => [WithEndpoints, WithBackingPods, WithWarnings("Service")]
    case Secrets => [WithWarnings("Secret")]
    case ConfigMaps => [WithWarnings("ConfigMap")]
    case Jobs => [WithPods("Job"), WithWarnings("Job")]
    case CronJobs => [WithCronJobChildren, WithWarnings("CronJob")]
    case Pods => [WithNode, WithWarnings("Pod")]
    case ServiceAccounts => [WithWarnings("ServiceAccount")]
    case Namespaces => [WithWarnings("Namespace")]
    case Ingresses => [WithIngressData, WithWarnings("Ingress")]
    case HorizontalPodAutoscalers => [WithHpaData, WithWarnings("HorizontalPodAutoscaler")]
    case PersistentVolumeClaims => [WithPv, WithStorageClass, WithWarnings("PersistentVolumeClaim")]
    case PersistentVolumes => [WithPvc, WithWarnings("PersistentVolume")]
    case NetworkPolicies => [WithWarnings("NetworkPolicy")]
    case ResourceQuotas => [WithWarnings("ResourceQuota")]
    case LimitRanges => [WithWarnings("LimitRange")]
    case ClusterRoles => [WithWarnings("ClusterRole")]
    case ClusterRoleBindings => [WithWarnings("ClusterRoleBinding")]
  }

  /** The groups applySecondPhaseEnrichments goes over. */
  predicate InSecondPhase(kind: GroupKind) {
    kind !in {NetworkPolicies, ResourceQuotas, LimitRanges, ClusterRoles, ClusterRoleBindings}
  }

  /** The key each enricher checks in the request. */
  function TargetOf(e: Enricher): string {
    match e
    case WithPods(_) => "pods"
    case WithReplicaSets => "replicasets"
    case WithWarnings(_) => "events"
    case WithStatefulSetPvcs => "pvcs"
    case WithOwner => "owner"
    case WithEndpoints => "endpoints"
    case WithBackingPods => "backingpods"
    case WithCronJobChildren => "cronjob"
    case WithNode => "node"
    case WithIngressData => "ingress"
    case WithHpaData => "hpa"
    case WithPv => "pv"
    case WithStorageClass => "storageclass"
    case WithPvc => "pv"
  }

  /** The keys each enricher may write. */
  function OwnKeys(e: Enricher): set<string> {
    match e
    case WithPods(_) => {"_pods"}
    case WithReplicaSets => {"_replicaSets"}
    case WithWarnings(_) => {"_warnings"}
    case WithStatefulSetPvcs => {"_pvcs"}
    case WithOwner => {"_owner"}
    case WithEndpoints => {"_endpoints"}
    case WithBackingPods => {"_backingPods"}
    case WithCronJobChildren => {"_activeJobs", "_lastJob", "_lastSuccessfulJob"}
    case WithNode => {"_node"}
    case WithIngressData => {"_loadBalancerIPs", "_tlsSecrets"}
    case WithHpaData => {"_scaleTarget", "_currentMetrics"}
    case WithPv => {"_pv"}
    case WithStorageClass => {"_storageClass"}
    case WithPvc => {"_pvc"}
  }

  datatype Aliases = Aliases(groups: Groups, index: map<string, string>)

  /** The ReplicaSet enricher of Deployments checks the exact key only; all others accept any spelling. */
  predicate IsOn(al: Aliases, r: Request, e: Enricher) {
    if e.WithReplicaSets? then ShouldEnrich(r, "replicasets")
    else EnrichmentEnabled(al.groups, al.index, r, TargetOf(e))
  }

  // ----- The embedded data -----

  /** A fixed snapshot of the cluster: pods by namespace and match labels, ReplicaSets by namespace,
      the summary of a pod, and what the enrichers not spelt out here embed, from the parts of the
      object they read. */
  datatype Api = Api(
    pods: (string, Fields) -> Option<seq<Fields>>,
    replicaSets: string -> Option<seq<Fields>>,
    podSummary: Fields -> Value,
    other: (Enricher, Option<Value>, Option<Value>, Option<Value>) -> Fields)

  function Get(f: Fields, key: string): Option<Value> { if key in f then Some(f[key]) else None }

  /** obj[key] as a map; nil otherwise. */
  function MapAt(f: Fields, key: string): Option<Fields> {
    if key in f && f[key].Map? then Some(f[key].fields) else None
  }

  function StrAt(f: Fields, key: string): string {
    if key in f && f[key].Str? then f[key].text else ""
  }

  function OwnerRefs(f: Fields): seq<Value> {
    var meta := MapAt(f, "metadata");
    if meta.Some? && "ownerReferences" in meta.value && meta.value["ownerReferences"].List?
    then meta.value["ownerReferences"].items else []
  }

  predicate PodOwnedBy(f: Fields, kind: string) {
    exists i :: 0 <= i < |OwnerRefs(f)| && OwnerRefs(f)[i].Map? && StrAt(OwnerRefs(f)[i].fields, "kind") == kind
  }

  /** The comment above the code asks for a controller reference too; the code does not. */
  predicate OwnedByUid(f: Fields, uid: string) {
    exists i :: 0 <= i < |OwnerRefs(f)| && OwnerRefs(f)[i].Map? && StrAt(OwnerRefs(f)[i].fields, "uid") == uid
  }

  predicate IsControllerRef(ref: Value) { ref.Map? && Get(ref.fields, "controller") == Some(Bool(true)) }

  /** What that comment asks for: a controller reference with the uid. */
  predicate ControlledByUid(f: Fields, uid: string) {
    exists i :: 0 <= i < |OwnerRefs(f)| && IsControllerRef(OwnerRefs(f)[i])
        && StrAt(OwnerRefs(f)[i].fields, "uid") == uid
  }

  function OrNull(v: Option<Value>): Value { if v.Some? then v.value else Null }

  /** The first controller reference, summarised. */
  function ControllerOwner(refs: seq<Value>): Fields {
    if refs == [] then map[]
    else if IsControllerRef(refs[0]) then
      var ref := refs[0].fields;
      var name, kind, uid := OrNull(Get(ref, "name")), OrNull(Get(ref, "kind")), OrNull(Get(ref, "uid"));
      map["_owner" := Map(map["name" := name, "kind" := kind, "uid" := uid])]
    else ControllerOwner(refs[1..])
  }

  function OwnerOf(f: Fields): Fields { ControllerOwner(OwnerRefs(f)) }

  function MatchLabels(f: Fields): Fields {
    var spec := MapAt(f, "spec");
    if spec.None? then map[]
    else
      var selector := MapAt(spec.value, "selector");
      if selector.None? then map[]
      else
        var labels := MapAt(selector.value, "matchLabels");
        if labels.None? then map[] else labels.value
  }

  function Summaries(api: Api, pods: seq<Fields>, ownerKind: string): seq<Value> {
    if pods == [] then []
    else
      (if PodOwnedBy(pods[0], ownerKind) then [api.podSummary(pods[0])] else []) +
      Summaries(api, pods[1..], ownerKind)
  }

  function OwnedReplicaSets(sets: seq<Fields>, uid: string): seq<Value> {
    if sets == [] then []
    else (if OwnedByUid(sets[0], uid) then [Map(sets[0] + OwnerOf(sets[0]))] else []) + OwnedReplicaSets(sets[1..], uid)
  }

  function PodsOf(api: Api, f: Fields, ownerKind: string): Fields {
    if MatchLabels(f) == map[] then map[]
    else
      var meta := MapAt(f, "metadata");
      var listed := api.pods(if meta.Some? then StrAt(meta.value, "namespace") else "", MatchLabels(f));
      if listed.None? then map[] else map["_pods" := List(Summaries(api, listed.value, ownerKind))]
  }

  function ReplicaSetsOf(api: Api, f: Fields): Fields {
    var meta := MapAt(f, "metadata");
    if meta.None? || StrAt(meta.value, "namespace") == "" || StrAt(meta.value, "uid") == "" then map[]
    else
      var listed := api.replicaSets(StrAt(meta.value, "namespace"));
      if listed.None? then map[]
      else
        var owned := OwnedReplicaSets(listed.value, StrAt(meta.value, "uid"));
        if owned == [] then map[] else map["_replicaSets" := List(owned)]
  }

  /** What an enricher writes into an object. */
  function Writes(api: Api, e: Enricher, f: Fields): Fields {
    match e
    case WithPods(ownerKind) => PodsOf(api, f, ownerKind)
    case WithReplicaSets => ReplicaSetsOf(api, f)
    case WithOwner => OwnerOf(f)
    case _ =>
      var out := api.other(e, Get(f, "metadata"), Get(f, "spec"), Get(f, "status"));
      map key | key in out && key in OwnKeys(e) :: out[key]
  }

  /** A group's enrichers one after the other, those that are on. */
  function Apply(api: Api, al: Aliases, r: Request, es: seq<Enricher>, f: Fields): Fields {
    if es == [] then f
    else Apply(api, al, r, es[1..], if IsOn(al, r, es[0]) then f + Writes(api, es[0], f) else f)
  }

  function Enriched(api: Api, al: Aliases, r: Request, kind: GroupKind, f: Fields): Fields {
    Apply(api, al, r, EnrichersOf(kind), f)
  }

  // ----- What is embedded -----

  /** What has to be requested for each key that is written. */
  const ASKED_BY: map<string, string> :=
    map["_pods" := "pods", "_replicaSets" := "replicasets", "_warnings" := "events", "_pvcs" := "pvcs",
        "_owner" := "owner", "_endpoints" := "endpoints", "_backingPods" := "backingpods",
        "_activeJobs" := "cronjob", "_lastJob" := "cronjob", "_lastSuccessfulJob" := "cronjob", "_node" := "node",
        "_loadBalancerIPs" := "ingress", "_tlsSecrets" := "ingress", "_scaleTarget" := "hpa",
        "_currentMetrics" := "hpa", "_pv" := "pv", "_storageClass" := "storageclass", "_pvc" := "pv"]

  lemma KeysAreAskedFor(e: Enricher, key: string)
    requires key in OwnKeys(e)
    ensures key in ASKED_BY && TargetOf(e) == ASKED_BY[key]
  {
  }

  /** Who may write each key. */
  lemma KeysAreWrittenBy(e: Enricher)
    ensures "_pods" in OwnKeys(e) <==> e.WithPods?
    ensures "_replicaSets" in OwnKeys(e) <==> e.WithReplicaSets?
    ensures "_warnings" in OwnKeys(e) <==> e.WithWarnings?
    ensures "_pvcs" in OwnKeys(e) <==> e.WithStatefulSetPvcs?
    ensures "_owner" in OwnKeys(e) <==> e.WithOwner?
    ensures "_endpoints" in OwnKeys(e) <==> e.WithEndpoints?
    ensures "_backingPods" in OwnKeys(e) <==> e.WithBackingPods?
    ensures "_activeJobs" in OwnKeys(e) <==> e.WithCronJobChildren?
    ensures "_lastJob" in OwnKeys(e) <==> e.WithCronJobChildren?
    ensures "_lastSuccessfulJob" in OwnKeys(e) <==> e.WithCronJobChildren?
    ensures "_node" in OwnKeys(e) <==> e.WithNode?
    ensures "_loadBalancerIPs" in OwnKeys(e) <==> e.WithIngressData?
    ensures "_tlsSecrets" in OwnKeys(e) <==> e.WithIngressData?
    ensures "_scaleTarget" in OwnKeys(e) <==> e.WithHpaData?
    ensures "_currentMetrics" in OwnKeys(e) <==> e.WithHpaData?
    ensures "_pv" in OwnKeys(e) <==> e.WithPv?
    ensures "_storageClass" in OwnKeys(e) <==> e.WithStorageClass?
    ensures "_pvc" in OwnKeys(e) <==> e.WithPvc?
  {
    match e
    case WithPods(_) =>
    case WithWarnings(_) =>
    case WithCronJobChildren =>
    case WithIngressData =>
    case WithHpaData =>
    case _ =>
  }

  /** The kinds each enricher is for; warnings are for every kind, under its own name. */
  predicate IsFor(e: Enricher, kind: GroupKind) {
    match e
    case WithPods(owner) =>
      || (owner == "ReplicaSet" && kind in {Deployments, ReplicaSets})
      || (owner == "StatefulSet" && kind == StatefulSets) || (owner == "Job" && kind == Jobs)
    case WithReplicaSets => kind == Deployments
    case WithStatefulSetPvcs => kind == StatefulSets
    case WithOwner => kind == ReplicaSets
    case WithEndpoints => kind == Services
    case WithBackingPods => kind == Services
    case WithCronJobChildren => kind == CronJobs
    case WithNode => kind == Pods
    case WithIngressData => kind == Ingresses
    case WithHpaData => kind == HorizontalPodAutoscalers
    case WithPv => kind == PersistentVolumeClaims
    case WithStorageClass => kind == PersistentVolumeClaims
    case WithPvc => kind == PersistentVolumes
    case WithWarnings(name) => name == WarnedAs(kind)
  }

  lemma EnricherIsFor(kind: GroupKind, e: Enricher)
    ensures e in EnrichersOf(kind) <==> IsFor(e, kind)
  {
    EnrichersAreFor(kind);
    if IsFor(e, kind) { ForMeansListed(kind, e); }
  }

  lemma EnrichersAreFor(kind: GroupKind)
    ensures forall e <- EnrichersOf(kind) :: IsFor(e, kind)
  {
    match kind
    case Deployments =>
    case StatefulSets =>
    case ReplicaSets =>
    case Services =>
    case PersistentVolumeClaims =>
    case _ =>
  }

  lemma ForMeansListed(kind: GroupKind, e: Enricher)
    requires IsFor(e, kind)
    ensures e in EnrichersOf(kind)
  {
    match e
    case WithWarnings(_) => LastWarns(kind);
    case WithPods(_) => PodsAreListed(kind);
    case _ => EnricherOfOneKind(kind, e);
  }

  lemma LastWarns(kind: GroupKind)
    ensures var es := EnrichersOf(kind); es != [] && es[|es| - 1] == WithWarnings(WarnedAs(kind))
  {
  }

  lemma PodsAreListed(kind: GroupKind)
    ensures kind in {Deployments, ReplicaSets} ==> EnrichersOf(kind)[0] == WithPods("ReplicaSet")
    ensures kind == StatefulSets ==> EnrichersOf(kind)[0] == WithPods("StatefulSet")
    ensures kind == Jobs ==> EnrichersOf(kind)[0] == WithPods("Job")
  {
  }

  lemma EnricherOfOneKind(kind: GroupKind, e: Enricher)
    requires IsFor(e, kind) && !e.WithWarnings? && !e.WithPods?
    ensures exists i :: 0 <= i < |EnrichersOf(kind)| && EnrichersOf(kind)[i] == e
  {
    var es := EnrichersOf(kind);
    if e in {WithReplicaSets, WithStatefulSetPvcs, WithOwner, WithBackingPods, WithStorageClass} {
      assert es[1] == e;
    } else {
      assert es[0] == e;
    }
  }

  /** The kind by which the events about an object are found. */
  function WarnedAs(kind: GroupKind): string {
    match kind
    case Deployments => "Deployment"
    case StatefulSets => "StatefulSet"
    case ReplicaSets => "ReplicaSet"
    case Customs => ""
    case Services => "Service"
    case Secrets => "Secret"
    case ConfigMaps => "ConfigMap"
    case Jobs => "Job"
    case CronJobs => "CronJob"
    case Pods => "Pod"
    case ServiceAccounts => "ServiceAccount"
    case Namespaces => "Namespace"
    case Ingresses => "Ingress"
    case HorizontalPodAutoscalers => "HorizontalPodAutoscaler"
    case PersistentVolumeClaims => "PersistentVolumeClaim"
    case PersistentVolumes => "PersistentVolume"
    case NetworkPolicies => "NetworkPolicy"
    case ResourceQuotas => "ResourceQuota"
    case LimitRanges => "LimitRange"
    case ClusterRoles => "ClusterRole"
    case ClusterRoleBindings => "ClusterRoleBinding"
  }

  /** An object whose metadata list an owner reference with that text under the key. */
  ghost predicate HasOwner(f: Fields, key: string, text: string) {
    && "metadata" in f && f["metadata"].Map?
    && "ownerReferences" in f["metadata"].fields && f["metadata"].fields["ownerReferences"].List?
    && exists ref :: ref in f["metadata"].fields["ownerReferences"].items && ref.Map?
                     && key in ref.fields && ref.fields[key] == Str(text)
  }

  lemma OwnedMeans(f: Fields, text: string)
    requires text != ""
    ensures PodOwnedBy(f, text) <==> HasOwner(f, "kind", text)
    ensures OwnedByUid(f, text) <==> HasOwner(f, "uid", text)
  {
    var refs := OwnerRefs(f);
    if HasOwner(f, "kind", text) {
      var ref :| ref in refs && ref.Map? && "kind" in ref.fields && ref.fields["kind"] == Str(text);
      var i :| 0 <= i < |refs| && refs[i] == ref;
      assert refs[i].Map? && StrAt(refs[i].fields, "kind") == text;
    }
    if HasOwner(f, "uid", text) {
      var ref :| ref in refs && ref.Map? && "uid" in ref.fields && ref.fields["uid"] == Str(text);
      var i :| 0 <= i < |refs| && refs[i] == ref;
      assert refs[i].Map? && StrAt(refs[i].fields, "uid") == text;
    }
  }

  /** The summaries of a list of pods: in order, one for each pod with an owner of the kind. */
  lemma {:induction false} SummariesInOrder(api: Api, a: seq<Fields>, b: seq<Fields>, ownerKind: string)
    ensures Summaries(api, a + b, ownerKind) == Summaries(api, a, ownerKind) + Summaries(api, b, ownerKind)
  {
    hide PodOwnedBy;
    if a == [] {
      assert a + b == b;
    } else {
      SummariesInOrder(api, a[1..], b, ownerKind);
      assert (a + b)[1..] == a[1..] + b && (a + b)[0] == a[0];
      var first := if PodOwnedBy(a[0], ownerKind) then [api.podSummary(a[0])] else [];
      assert Summaries(api, a + b, ownerKind) == first + Summaries(api, a[1..] + b, ownerKind);
      assert Summaries(api, a, ownerKind) == first + Summaries(api, a[1..], ownerKind);
      hide *;
      Regroup(first, Summaries(api, a[1..], ownerKind), Summaries(api, b, ownerKind));
    }
  }

  lemma OneSummary(api: Api, pod: Fields, ownerKind: string)
    requires ownerKind != ""
    ensures HasOwner(pod, "kind", ownerKind) ==> Summaries(api, [pod], ownerKind) == [api.podSummary(pod)]
    ensures !HasOwner(pod, "kind", ownerKind) ==> Summaries(api, [pod], ownerKind) == []
  {
    OwnedMeans(pod, ownerKind);
    hide PodOwnedBy, HasOwner;
    assert [pod][1..] == [];
  }

  /** The ReplicaSets embedded: in order, each with an owner of the uid, with its controller added. */
  lemma {:induction false} ReplicaSetsInOrder(a: seq<Fields>, b: seq<Fields>, uid: string)
    ensures OwnedReplicaSets(a + b, uid) == OwnedReplicaSets(a, uid) + OwnedReplicaSets(b, uid)
  {
    hide OwnedByUid, OwnerOf;
    if a == [] {
      assert a + b == b;
    } else {
      ReplicaSetsInOrder(a[1..], b, uid);
      assert (a + b)[1..] == a[1..] + b && (a + b)[0] == a[0];
      var first := if OwnedByUid(a[0], uid) then [Map(a[0] + OwnerOf(a[0]))] else [];
      assert OwnedReplicaSets(a + b, uid) == first + OwnedReplicaSets(a[1..] + b, uid);
      assert OwnedReplicaSets(a, uid) == first + OwnedReplicaSets(a[1..], uid);
      hide *;
      Regroup(first, OwnedReplicaSets(a[1..], uid), OwnedReplicaSets(b, uid));
    }
  }

  lemma OneReplicaSet(rs: Fields, uid: string)
    requires uid != ""
    ensures HasOwner(rs, "uid", uid) ==> OwnedReplicaSets([rs], uid) == [Map(rs + OwnerOf(rs))]
    ensures !HasOwner(rs, "uid", uid) ==> OwnedReplicaSets([rs], uid) == []
  {
    OwnedMeans(rs, uid);
    hide OwnedByUid, HasOwner, OwnerOf;
    assert [rs][1..] == [];
  }

  predicate Controls(ref: Value) { ref.Map? && "controller" in ref.fields && ref.fields["controller"] == Bool(true) }

  /** The owner is summarised from the first reference that controls; without one there is none. */
  lemma {:induction false} FirstControllerIsTheOwner(refs: seq<Value>, i: nat)
    requires i <= |refs| && (forall j | 0 <= j < i :: !Controls(refs[j])) && (i < |refs| ==> Controls(refs[i]))
    ensures i == |refs| ==> ControllerOwner(refs) == map[]
    ensures i < |refs| ==>
              && ControllerOwner(refs).Keys == {"_owner"} && ControllerOwner(refs)["_owner"].Map?
              && var owner := ControllerOwner(refs)["_owner"].fields;
                 && owner.Keys == {"name", "kind", "uid"}
                 && forall key <- owner.Keys ::
                      owner[key] == if key in refs[i].fields then refs[i].fields[key] else Null
  {
    if refs != [] && i > 0 {
      assert forall j | 0 <= j < i - 1 :: refs[1..][j] == refs[j + 1];
      FirstControllerIsTheOwner(refs[1..], i - 1);
    }
  }

  /** An object with match labels gets the summaries of the pods the API lists for them in its
      namespace. Without labels, or when the API fails, it gets nothing. */
  lemma PodsAreWritten(api: Api, f: Fields, ownerKind: string, spec: Fields, selector: Fields, labels: Fields,
                       meta: Fields, ns: string)
    requires "spec" in f && f["spec"] == Map(spec) && "selector" in spec && spec["selector"] == Map(selector)
    requires "matchLabels" in selector && selector["matchLabels"] == Map(labels)
    requires "metadata" in f && f["metadata"] == Map(meta) && "namespace" in meta && meta["namespace"] == Str(ns)
    ensures Writes(api, WithPods(ownerKind), f)
         == if labels == map[] || api.pods(ns, labels).None? then map[]
            else map["_pods" := List(Summaries(api, api.pods(ns, labels).value, ownerKind))]
  {
    hide Summaries;
  }

  lemma NoSelectorNoPods(api: Api, f: Fields, ownerKind: string)
    requires || "spec" !in f || !f["spec"].Map? || "selector" !in f["spec"].fields
             || !f["spec"].fields["selector"].Map?
             || "matchLabels" !in f["spec"].fields["selector"].fields
             || !f["spec"].fields["selector"].fields["matchLabels"].Map?
    ensures Writes(api, WithPods(ownerKind), f) == map[]
  {
    hide Summaries;
  }

  /** An object with namespace and uid gets the ReplicaSets of its namespace that it owns, if any. */
  lemma ReplicaSetsAreWritten(api: Api, f: Fields, meta: Fields, ns: string, uid: string)
    requires "metadata" in f && f["metadata"] == Map(meta)
    requires "namespace" in meta && meta["namespace"] == Str(ns) && "uid" in meta && meta["uid"] == Str(uid)
    ensures Writes(api, WithReplicaSets, f)
         == if ns == "" || uid == "" || api.replicaSets(ns).None?
               || OwnedReplicaSets(api.replicaSets(ns).value, uid) == []
            then map[] else map["_replicaSets" := List(OwnedReplicaSets(api.replicaSets(ns).value, uid))]
  {
    hide OwnedReplicaSets;
  }

  // ----- Owned, or controlled -----

  predicate HasUid(ref: Value, uid: string) { ref.Map? && StrAt(ref.fields, "uid") == uid }

  /** Code and comment agree exactly when no reference has the uid, or one that has it controls. */
  lemma OwnedByUidMeetsCommentIff(f: Fields, uid: string)
    ensures OwnedByUid(f, uid) == ControlledByUid(f, uid)
       <==> || (forall i | 0 <= i < |OwnerRefs(f)| :: !HasUid(OwnerRefs(f)[i], uid))
            || (exists i :: 0 <= i < |OwnerRefs(f)| && HasUid(OwnerRefs(f)[i], uid) && IsControllerRef(OwnerRefs(f)[i]))
  {
    assert ControlledByUid(f, uid)
      <==> exists i :: 0 <= i < |OwnerRefs(f)| && HasUid(OwnerRefs(f)[i], uid) && IsControllerRef(OwnerRefs(f)[i]);
    assert OwnedByUid(f, uid) <==> exists i :: 0 <= i < |OwnerRefs(f)| && HasUid(OwnerRefs(f)[i], uid);
  }

  /** They disagree about the ReplicaSets of a Deployment exactly on those with a reference to it
      none of which controls; those are embedded all the same. */
  lemma {:induction false} EmbeddedButNotControlled(sets: seq<Fields>, uid: string)
    ensures (exists i :: 0 <= i < |sets| && OwnedByUid(sets[i], uid) && !ControlledByUid(sets[i], uid))
       <==> |OwnedReplicaSets(sets, uid)| > |ControlledReplicaSets(sets, uid)|
    ensures |OwnedReplicaSets(sets, uid)| >= |ControlledReplicaSets(sets, uid)|
  {
    if sets != [] {
      EmbeddedButNotControlled(sets[1..], uid);
      assert ControlledByUid(sets[0], uid) ==> OwnedByUid(sets[0], uid);
      assert forall i | 0 < i < |sets| :: sets[i] == sets[1..][i - 1];
      hide OwnedByUid, ControlledByUid;
      if exists i :: 0 <= i < |sets| && OwnedByUid(sets[i], uid) && !ControlledByUid(sets[i], uid) {
        var i :| 0 <= i < |sets| && OwnedByUid(sets[i], uid) && !ControlledByUid(sets[i], uid);
        assert i > 0 ==> OwnedByUid(sets[1..][i - 1], uid) && !ControlledByUid(sets[1..][i - 1], uid);
      }
      if exists i :: 0 <= i < |sets[1..]| && OwnedByUid(sets[1..][i], uid) && !ControlledByUid(sets[1..][i], uid) {
        var i :| 0 <= i < |sets[1..]| && OwnedByUid(sets[1..][i], uid) && !ControlledByUid(sets[1..][i], uid);
        assert OwnedByUid(sets[i + 1], uid) && !ControlledByUid(sets[i + 1], uid);
      }
    }
  }

  function ControlledReplicaSets(sets: seq<Fields>, uid: string): seq<Value> {
    if sets == [] then []
    else
      (if ControlledByUid(sets[0], uid) then [Map(sets[0] + OwnerOf(sets[0]))] else []) +
      ControlledReplicaSets(sets[1..], uid)
  }

  /** A reference with the uid and without `controller`. */
  lemma OwnedWithoutController(uid: string)
    ensures exists f: Fields :: OwnedByUid(f, uid) && !ControlledByUid(f, uid)
  {
    var ref := map["uid" := Str(uid)];
    var f: Fields := map["metadata" := Map(map["ownerReferences" := List([Map(ref)])])];
    assert OwnerRefs(f) == [Map(ref)];
    assert OwnerRefs(f)[0].Map? && StrAt(OwnerRefs(f)[0].fields, "uid") == uid;
    assert OwnedByUid(f, uid) && !ControlledByUid(f, uid);
  }

  // ----- Enrichers do not see each other's writes -----

  /** The parts of an object enrichers read are the same. */
  predicate SameSource(f: Fields, g: Fields) {
    Get(f, "metadata") == Get(g, "metadata") && Get(f, "spec") == Get(g, "spec") && Get(f, "status") == Get(g, "status")
  }

  lemma {:induction false} OwnerKey(refs: seq<Value>)
    ensures ControllerOwner(refs).Keys <= {"_owner"}
  {
    if refs != [] { OwnerKey(refs[1..]); }
  }

  lemma WritesOwnKeys(api: Api, e: Enricher, f: Fields)
    ensures Writes(api, e, f).Keys <= OwnKeys(e)
    ensures "metadata" !in OwnKeys(e) && "spec" !in OwnKeys(e) && "status" !in OwnKeys(e)
  {
    OwnerKey(OwnerRefs(f));
  }

  lemma SameSourceSameMaps(f: Fields, g: Fields)
    requires SameSource(f, g)
    ensures MapAt(f, "metadata") == MapAt(g, "metadata") && MapAt(f, "spec") == MapAt(g, "spec")
    ensures OwnerRefs(f) == OwnerRefs(g) && MatchLabels(f) == MatchLabels(g)
  {
  }

  lemma WritesFromSource(api: Api, e: Enricher, f: Fields, g: Fields)
    requires SameSource(f, g)
    ensures Writes(api, e, f) == Writes(api, e, g)
  {
    SameSourceSameMaps(f, g);
  }

  lemma WritingKeepsSource(api: Api, e: Enricher, f: Fields, g: Fields)
    requires SameSource(f, g)
    ensures SameSource(f + Writes(api, e, f), g)
  {
    WritesOwnKeys(api, e, f);
  }

  predicate PairwiseDisjoint(es: seq<Enricher>) {
    forall i, j | 0 <= i < j < |es| :: OwnKeys(es[i]) !! OwnKeys(es[j])
  }

  lemma EnrichersAreDisjoint(kind: GroupKind)
    ensures PairwiseDisjoint(EnrichersOf(kind))
  {
  }

  /** Where a key of the result comes from. */
  ghost predicate WrittenBy(api: Api, al: Aliases, r: Request, es: seq<Enricher>, f: Fields, key: string, i: nat) {
    i < |es| && IsOn(al, r, es[i]) && key in Writes(api, es[i], f)
  }

  /** The result key by key: an enricher that is on and writes the key decides it, else the object. */
  lemma {:induction false} ApplyByKey(api: Api, al: Aliases, r: Request, es: seq<Enricher>, f: Fields, source: Fields,
      key: string)
    requires PairwiseDisjoint(es) && SameSource(f, source)
    ensures forall i: nat | WrittenBy(api, al, r, es, source, key, i) ::
              key in Apply(api, al, r, es, f) && Apply(api, al, r, es, f)[key] == Writes(api, es[i], source)[key]
    ensures (forall i: nat :: !WrittenBy(api, al, r, es, source, key, i))
       ==> Get(Apply(api, al, r, es, f), key) == Get(f, key)
  {
    if es != [] {
      var written := Writes(api, es[0], f);
      WritesFromSource(api, es[0], f, source);
      WritingKeepsSource(api, es[0], f, source);
      var next := if IsOn(al, r, es[0]) then f + written else f;
      ApplyByKey(api, al, r, es[1..], next, source, key);
      forall i: nat ensures WrittenBy(api, al, r, es, source, key, i + 1)
          <==> WrittenBy(api, al, r, es[1..], source, key, i) {
      }
      if WrittenBy(api, al, r, es, source, key, 0) {
        forall i: nat | i > 0 ensures !WrittenBy(api, al, r, es, source, key, i) {
          WritesOwnKeys(api, es[0], source);
          if i < |es| { WritesOwnKeys(api, es[i], source); }
        }
        forall i: nat ensures !WrittenBy(api, al, r, es[1..], source, key, i) {
          assert !WrittenBy(api, al, r, es, source, key, i + 1);
        }
      }
    }
  }

  /** What an object found as `found` holds after the enrichers of its kind that are `on`: what those
      write into it, and otherwise what it held. */
  ghost predicate HoldsWrites(api: Api, kind: GroupKind, found: Fields, got: Fields, on: Enricher -> bool) {
    && (forall e, key | e in EnrichersOf(kind) && on(e) && key in Writes(api, e, found) ::
          key in got && got[key] == Writes(api, e, found)[key])
    && forall key | (forall e | e in EnrichersOf(kind) && on(e) :: key !in Writes(api, e, found)) ::
         Get(got, key) == Get(found, key)
  }

  lemma EnrichedHoldsWrites(api: Api, al: Aliases, r: Request, kind: GroupKind, f: Fields, on: Enricher -> bool)
    requires forall e | e in EnrichersOf(kind) :: on(e) <==> IsOn(al, r, e)
    ensures HoldsWrites(api, kind, f, Enriched(api, al, r, kind, f), on)
  {
    var es, got := EnrichersOf(kind), Enriched(api, al, r, kind, f);
    EnrichersAreDisjoint(kind);
    SameSourceReflexive(f);
    hide EnrichersOf, Writes, Apply, SameSource, IsOn, PairwiseDisjoint;
    forall e, key | e in es && on(e) && key in Writes(api, e, f)
      ensures key in got && got[key] == Writes(api, e, f)[key]
    {
      var i: nat :| i < |es| && es[i] == e;
      ApplyByKey(api, al, r, es, f, f, key);
      assert WrittenBy(api, al, r, es, f, key, i);
    }
    forall key | forall e | e in es && on(e) :: key !in Writes(api, e, f)
      ensures Get(got, key) == Get(f, key)
    {
      ApplyByKey(api, al, r, es, f, f, key);
      forall i: nat ensures !WrittenBy(api, al, r, es, f, key, i) {
        if i < |es| { assert es[i] in es; }
      }
    }
  }

  lemma {:induction false} ApplyKeepsSource(api: Api, al: Aliases, r: Request, es: seq<Enricher>, f: Fields)
    ensures SameSource(Apply(api, al, r, es, f), f)
  {
    if es != [] {
      WritingKeepsSource(api, es[0], f, f);
      ApplyKeepsSource(api, al, r, es[1..], if IsOn(al, r, es[0]) then f + Writes(api, es[0], f) else f);
    }
  }

  lemma OnByEither(al: Aliases, a: seq<string>, b: seq<string>, e: Enricher)
    ensures IsOn(al, Request(false, a + b), e) <==> IsOn(al, Request(false, a), e) || IsOn(al, Request(false, b), e)
  {
    EnabledByEither(al.groups, al.index, a, b, TargetOf(e));
  }

  lemma SameByKey(f: Fields, g: Fields)
    requires forall key :: Get(f, key) == Get(g, key)
    ensures f == g
  {
    forall key ensures key in f <==> key in g {
      assert Get(f, key) == Get(g, key);
    }
    forall key | key in f ensures f[key] == g[key] {
      assert Get(f, key) == Get(g, key);
    }
  }

  /** Running a group's enrichers for `first` and then, over the result, for `second` leaves every
      object exactly as one run for both would. */
  lemma TwoPhasesAreOne(api: Api, al: Aliases, first: seq<string>, second: seq<string>, kind: GroupKind, f: Fields)
    ensures Enriched(api, al, Request(false, second), kind, Enriched(api, al, Request(false, first), kind, f))
         == Enriched(api, al, Request(false, first + second), kind, f)
  {
    var es := EnrichersOf(kind);
    var r1, r2, both := Request(false, first), Request(false, second), Request(false, first + second);
    EnrichersAreDisjoint(kind);
    hide EnrichersOf, Writes, Apply, SameSource, IsOn;
    var g := Apply(api, al, r1, es, f);
    ApplyKeepsSource(api, al, r1, es, f);
    assert SameSource(f, f) by { SameSourceReflexive(f); }
    var two, one := Apply(api, al, r2, es, g), Apply(api, al, both, es, f);
    forall key ensures Get(two, key) == Get(one, key) {
      ApplyByKey(api, al, r1, es, f, f, key);
      ApplyByKey(api, al, r2, es, g, f, key);
      ApplyByKey(api, al, both, es, f, f, key);
      forall i: nat | i < |es|
        ensures WrittenBy(api, al, both, es, f, key, i)
           <==> WrittenBy(api, al, r1, es, f, key, i) || WrittenBy(api, al, r2, es, f, key, i)
      {
        OnByEither(al, first, second, es[i]);
      }
    }
    SameByKey(two, one);
  }

  lemma SameSourceReflexive(f: Fields)
    ensures SameSource(f, f)
  {
  }

  /** The groups the second phase omits get one run for `first` only. For objects as they are read,
      which hold no `_warnings`, that is the run for both exactly when warnings were on already,
      are not newly requested, or there are none to write. */
  lemma OmittedGroupAgreesIff(api: Api, al: Aliases, first: seq<string>, second: seq<string>, kind: GroupKind,
      f: Fields)
    requires !InSecondPhase(kind) && "_warnings" !in f
    ensures Enriched(api, al, Request(false, first), kind, f)
              == Enriched(api, al, Request(false, first + second), kind, f)
       <==> || EnrichmentEnabled(al.groups, al.index, Request(false, first), "events")
            || !EnrichmentEnabled(al.groups, al.index, Request(false, second), "events")
            || Writes(api, EnrichersOf(kind)[0], f) == map[]
  {
    OnlyWarnings(kind);
    hide *;
    var w := EnrichersOf(kind)[0];
    OnByEither(al, first, second, w);
    IsOnWarnings(al, Request(false, first), w);
    IsOnWarnings(al, Request(false, second), w);
    EnrichedOnce(api, al, Request(false, first), kind, w, f);
    EnrichedOnce(api, al, Request(false, first + second), kind, w, f);
    WarningsOwnKey(api, w, f);
    WritingChangesIff(f, Writes(api, w, f));
  }

  lemma OnlyWarnings(kind: GroupKind)
    requires !InSecondPhase(kind)
    ensures |EnrichersOf(kind)| == 1 && EnrichersOf(kind) == [EnrichersOf(kind)[0]]
    ensures EnrichersOf(kind)[0].WithWarnings?
  {
  }

  lemma EnrichedOnce(api: Api, al: Aliases, r: Request, kind: GroupKind, w: Enricher, f: Fields)
    requires EnrichersOf(kind) == [w]
    ensures Enriched(api, al, r, kind, f) == if IsOn(al, r, w) then f + Writes(api, w, f) else f
  {
    hide EnrichersOf, IsOn, Writes;
    ApplyOne(api, al, r, w, f);
  }

  lemma WarningsOwnKey(api: Api, w: Enricher, f: Fields)
    requires w.WithWarnings?
    ensures Writes(api, w, f).Keys <= {"_warnings"}
  {
    WritesOwnKeys(api, w, f);
  }

  lemma WritingChangesIff(f: Fields, written: Fields)
    requires "_warnings" !in f && written.Keys <= {"_warnings"}
    ensures f + written == f <==> written == map[]
  {
    if written != map[] {
      var key :| key in written;
      assert key == "_warnings" && key in f + written;
    }
  }

  lemma IsOnWarnings(al: Aliases, r: Request, w: Enricher)
    requires w.WithWarnings?
    ensures IsOn(al, r, w) <==> EnrichmentEnabled(al.groups, al.index, r, "events")
  {
  }

  /** A NetworkPolicy whose warnings are asked for by a conditional target does not get them. */
  lemma OmittedGroupCanMissWarnings()
    ensures exists api: Api, al: Aliases, f: Fields ::
              var missed := Enriched(api, al, Request(false, []), NetworkPolicies, f);
              var whole := Enriched(api, al, Request(false, [] + ["events"]), NetworkPolicies, f);
              "_warnings" !in missed && "_warnings" in whole
  {
    var api := NoisyApi();
    var al, f: Fields := Aliases(map[], map[]), map[];
    var w := WithWarnings("NetworkPolicy");
    assert EnrichersOf(NetworkPolicies) == [w];
    var none, events := Request(false, []), Request(false, [] + ["events"]);
    assert !IsOn(al, none, w);
    assert events.enrich[0] == "events" && IsOn(al, events, w);
    NoisyWarnings(w);
    hide EnrichersOf, Writes, IsOn;
    ApplyOne(api, al, none, w, f);
    ApplyOne(api, al, events, w, f);
    hide Apply;
    assert "_warnings" !in Enriched(api, al, none, NetworkPolicies, f)
             && "_warnings" in Enriched(api, al, events, NetworkPolicies, f);
  }

  /** A cluster that has a warning about everything. */
  function NoisyApi(): Api {
    Api((ns, labels) => None, ns => None, pod => Null,
        (e, meta, spec, status) => map["_warnings" := List([Str("FailedCreate")])])
  }

  lemma NoisyWarnings(w: Enricher)
    requires w.WithWarnings?
    ensures "_warnings" in Writes(NoisyApi(), w, map[])
  {
  }

  lemma ApplyOne(api: Api, al: Aliases, r: Request, e: Enricher, f: Fields)
    ensures Apply(api, al, r, [e], f) == if IsOn(al, r, e) then f + Writes(api, e, f) else f
  {
    assert [e][1..] == [];
  }
}
