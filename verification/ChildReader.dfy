/** ReadChildren: reading the declared groups, enriching them, evaluating the gates on the result and
    enriching again, over shared objects (pkg/children/children.go, pkg/types/methods.go). */
module ChildReader {
  import opened EnrichmentIndex
  import opened Enrichers
  import opened Values

  /** One entry of enrich:, with its gates. */
  datatype Target = Target(key: string, when_: seq<string>, or_: seq<string>)

  datatype Crd = Crd(enrichAll: bool, enrich: seq<Target>)

  predicate Unconditional(t: Target) { |t.when_| == 0 && |t.or_| == 0 }

  function Unconditionals(ts: seq<Target>): seq<Target> {
    if ts == [] then [] else (if Unconditional(ts[0]) then [ts[0]] else []) + Unconditionals(ts[1..])
  }

  /** Where an object is found: children["deployments"]["web"] is Slot(Deployments, "web"). */
  datatype Slot = Slot(kind: GroupKind, name: string)

  /** The children as gates see them: every object, and the first object of each group. */
  datatype View = View(objects: map<Slot, Fields>, firsts: map<GroupKind, Fields>)

  /** The code outside: the groups that are declared with what the API returns for each (missing
      objects left out), the enrichment data, and gate evaluation. */
  datatype Cluster = Cluster(
    groups: map<GroupKind, map<string, Fields>>,
    api: Api,
    gate: (Target, View) -> bool)

  function ActiveConditionals(c: Cluster, ts: seq<Target>, view: View): seq<Target> {
    if ts == [] then []
    else (if !Unconditional(ts[0]) && c.gate(ts[0], view) then [ts[0]] else []) + ActiveConditionals(c, ts[1..], view)
  }

  lemma {:induction false} UnconditionalsAre(ts: seq<Target>, x: string)
    ensures x in KeysOf(Unconditionals(ts))
       <==> exists i :: 0 <= i < |ts| && ts[i].key == x && |ts[i].when_| == 0 && |ts[i].or_| == 0
  {
    if ts != [] {
      UnconditionalsAre(ts[1..], x);
      var first, rest := if Unconditional(ts[0]) then [ts[0]] else [], Unconditionals(ts[1..]);
      KeysJoin(first, rest);
      OneKey(ts[0]);
      assert forall i | 0 < i < |ts| :: ts[i] == ts[1..][i - 1];
      hide KeysOf, Unconditionals;
      if exists i :: 0 <= i < |ts[1..]| && ts[1..][i].key == x && |ts[1..][i].when_| == 0 && |ts[1..][i].or_| == 0 {
        var i :| 0 <= i < |ts[1..]| && ts[1..][i].key == x && |ts[1..][i].when_| == 0 && |ts[1..][i].or_| == 0;
        assert ts[i + 1] == ts[1..][i];
      }
    }
  }

  lemma {:induction false} ActiveConditionalsAre(c: Cluster, ts: seq<Target>, view: View, x: string)
    ensures x in KeysOf(ActiveConditionals(c, ts, view))
       <==> exists i :: 0 <= i < |ts| && ts[i].key == x && (|ts[i].when_| > 0 || |ts[i].or_| > 0) && c.gate(ts[i], view)
  {
    if ts != [] {
      ActiveConditionalsAre(c, ts[1..], view, x);
      var first := if !Unconditional(ts[0]) && c.gate(ts[0], view) then [ts[0]] else [];
      KeysJoin(first, ActiveConditionals(c, ts[1..], view));
      OneKey(ts[0]);
      assert forall i | 0 < i < |ts| :: ts[i] == ts[1..][i - 1];
      hide KeysOf, ActiveConditionals;
      var more := ts[1..];
      if exists i :: 0 <= i < |more| && more[i].key == x && !Unconditional(more[i]) && c.gate(more[i], view) {
        var i :| 0 <= i < |more| && more[i].key == x && !Unconditional(more[i]) && c.gate(more[i], view);
        assert ts[i + 1] == more[i];
      }
    }
  }

  lemma KeysJoin(a: seq<Target>, b: seq<Target>)
    ensures KeysOf(a + b) == KeysOf(a) + KeysOf(b)
  {
  }

  lemma OneKey(t: Target)
    ensures KeysOf([t]) == [t.key] && KeysOf([]) == []
  {
  }

  function KeysOf(ts: seq<Target>): seq<string> { seq(|ts|, i requires 0 <= i < |ts| => ts[i].key) }

  function RequestOf(crd: Crd): Request { Request(crd.enrichAll, KeysOf(crd.enrich)) }

  const KINDS: seq<GroupKind> :=
    [Deployments, StatefulSets, ReplicaSets, Customs, Services, Secrets, ConfigMaps, Jobs, CronJobs, Pods,
     ServiceAccounts, Namespaces, Ingresses, HorizontalPodAutoscalers, PersistentVolumeClaims, PersistentVolumes,
     NetworkPolicies, ResourceQuotas, LimitRanges, ClusterRoles, ClusterRoleBindings]

  /** The test before the second phase holds iff some target is conditional. */
  lemma {:induction false} FewerIffConditional(ts: seq<Target>)
    ensures |Unconditionals(ts)| <= |ts|
    ensures |ts| > |Unconditionals(ts)| <==> exists i :: 0 <= i < |ts| && !Unconditional(ts[i])
  {
    if ts != [] {
      FewerIffConditional(ts[1..]);
      assert forall i :: 0 < i < |ts| ==> ts[i] == ts[1..][i - 1];
      if exists i :: 0 <= i < |ts| && !Unconditional(ts[i]) {
        var i :| 0 <= i < |ts| && !Unconditional(ts[i]);
        if i > 0 { assert !Unconditional(ts[1..][i - 1]); }
      }
      if |ts[1..]| > |Unconditionals(ts[1..])| {
        var i :| 0 <= i < |ts[1..]| && !Unconditional(ts[1..][i]);
        assert !Unconditional(ts[i + 1]);
      }
    }
  }

  lemma {:induction false} NoConditionalsNoneActive(c: Cluster, ts: seq<Target>, view: View)
    requires forall i | 0 <= i < |ts| :: Unconditional(ts[i])
    ensures ActiveConditionals(c, ts, view) == [] && Unconditionals(ts) == ts
  {
    if ts != [] { NoConditionalsNoneActive(c, ts[1..], view); }
  }

  // ----- Shared objects -----

  class ChildObject {
    var fields: Fields

    constructor (fields: Fields)
      ensures this.fields == fields
    {
      this.fields := fields;
    }
  }

  type Objects = map<Slot, ChildObject>

  /** No object is in two places. */
  predicate Distinct(g: Objects) {
    forall s, t | s in g && t in g && s != t :: g[s] != g[t]
  }

  ghost function All(g: Objects): set<ChildObject> { set s | s in g :: g[s] }

  function OfKind(g: Objects, kind: GroupKind): Objects { map s | s in g && s.kind == kind :: g[s] }

  /** One enricher over a group, object by object in any order. */
  method RunEnricher(api: Api, al: Aliases, r: Request, e: Enricher, g: Objects)
    requires Distinct(g)
    modifies All(g)
    ensures forall s <- g :: g[s].fields
              == old(if IsOn(al, r, e) then g[s].fields + Writes(api, e, g[s].fields) else g[s].fields)
  {
    if !IsOn(al, r, e) {
      return;
    }
    hide IsOn, Writes;
    var todo := g.Keys;
    while todo != {}
      invariant todo <= g.Keys
      invariant forall s <- todo :: g[s].fields == old(g[s].fields)
      invariant forall s <- g.Keys - todo :: g[s].fields == old(g[s].fields + Writes(api, e, g[s].fields))
      decreases todo
    {
      var s :| s in todo;
      g[s].fields := g[s].fields + Writes(api, e, g[s].fields);
      todo := todo - {s};
    }
  }

  method EnrichGroup(api: Api, al: Aliases, r: Request, kind: GroupKind, g: Objects)
    requires Distinct(g)
    modifies All(g)
    ensures forall s <- g :: g[s].fields == old(Enriched(api, al, r, kind, g[s].fields))
  {
    var es := EnrichersOf(kind);
    hide EnrichersOf, IsOn, Writes;
    for i := 0 to |es|
      invariant forall s <- g :: Apply(api, al, r, es[i..], g[s].fields) == old(Apply(api, al, r, es, g[s].fields))
    {
      RunEnricher(api, al, r, es[i], g);
      assert es[i..][1..] == es[i + 1..];
    }
    assert es[|es|..] == [];
  }

  lemma AllUpdated(g: Objects, s: Slot, o: ChildObject)
    ensures All(g[s := o]) <= All(g) + {o}
  {
    forall x | x in All(g[s := o]) ensures x in All(g) + {o} {
      var t :| t in g[s := o] && g[s := o][t] == x;
      if t != s { assert g[t] == x; }
    }
  }

  /** readResourceGroup: a new object for everything found. */
  method ReadGroup(kind: GroupKind, found: map<string, Fields>) returns (g: Objects)
    ensures forall s :: s in g <==> s.kind == kind && s.name in found
    ensures Distinct(g) && fresh(All(g))
    ensures forall s <- g :: g[s].fields == found[s.name]
  {
    g := map[];
    var todo := found.Keys;
    while todo != {}
      invariant todo <= found.Keys
      invariant forall s :: s in g <==> s.kind == kind && s.name in found.Keys - todo
      invariant Distinct(g) && fresh(All(g))
      invariant forall s <- g :: g[s].fields == found[s.name]
      decreases todo
    {
      var n :| n in todo;
      var o := new ChildObject(found[n]);
      assert Slot(kind, n) !in g && o !in All(g);
      AllUpdated(g, Slot(kind, n), o);
      g := g[Slot(kind, n) := o];
      todo := todo - {n};
    }
  }

  const PLACEHOLDER: Fields := map["_placeholder" := Bool(true), "status" := Map(map[])]

  /** firstValue: some object of the group, the same reference, or a new placeholder. */
  method FirstValue(g: Objects) returns (o: ChildObject)
    ensures if g != map[] then o in All(g) else fresh(o) && o.fields == PLACEHOLDER
  {
    if |g| == 0 {
      o := new ChildObject(PLACEHOLDER);
    } else {
      var s :| s in g;
      o := g[s];
    }
  }

  // ----- All groups -----

  /** The map ReadChildren builds. The entry of a group's singular is in `firsts`. */
  datatype Children = Children(objects: Objects, firsts: map<GroupKind, ChildObject>)

  /** Every singular is an object of its group, or a placeholder if the group is empty. */
  ghost predicate SingularsAre(ch: Children)
    reads ch.firsts.Values
  {
    forall k <- ch.firsts ::
      if OfKind(ch.objects, k) != map[] then ch.firsts[k] in All(OfKind(ch.objects, k))
      else ch.firsts[k] !in All(ch.objects) && ch.firsts[k].fields == PLACEHOLDER
  }

  /** Every declared group has its singular, and an object for everything the API returned. */
  ghost predicate SlotsAre(ch: Children, c: Cluster, kinds: seq<GroupKind>) {
    && (forall k :: k in ch.firsts <==> k in kinds && k in c.groups)
    && (forall s :: s in ch.objects <==> s.kind in kinds && s.kind in c.groups && s.name in c.groups[s.kind])
  }

  /** What was read, enriched for r. */
  ghost predicate Shows(ch: Children, c: Cluster, al: Aliases, r: Request, kinds: seq<GroupKind>)
    reads ch.objects.Values
  {
    && SlotsAre(ch, c, kinds)
    && (forall s <- ch.objects :: ch.objects[s].fields == Enriched(c.api, al, r, s.kind, c.groups[s.kind][s.name]))
  }

  /** A group just read, with its first object. */
  ghost predicate GroupRead(g: Objects, o: ChildObject, c: Cluster, al: Aliases, r: Request, kind: GroupKind)
    requires kind in c.groups
    reads g.Values, o
  {
    && Distinct(g)
    && (forall s :: s in g <==> s.kind == kind && s.name in c.groups[kind])
    && (forall s <- g :: g[s].fields == Enriched(c.api, al, r, kind, c.groups[kind][s.name]))
    && if g != map[] then o in All(g) else o.fields == PLACEHOLDER
  }

  /** One declared group: read, enrich, and its first object. */
  method ReadOne(c: Cluster, al: Aliases, r: Request, kind: GroupKind)
    returns (g: Objects, o: ChildObject, ghost made: set<ChildObject>)
    requires kind in c.groups
    ensures GroupRead(g, o, c, al, r, kind)
    ensures fresh(made) && All(g) <= made && o in made
  {
    hide Enriched, Distinct, All;
    g := ReadGroup(kind, c.groups[kind]);
    EnrichGroup(c.api, al, r, kind, g);
    o := FirstValue(g);
    made := All(g) + {o};
  }

  lemma AllJoined(g: Objects, h: Objects)
    requires g.Keys !! h.Keys
    ensures All(g + h) == All(g) + All(h)
  {
    forall x ensures x in All(g + h) <==> x in All(g) + All(h) {
      if x in All(g) {
        var s :| s in g && g[s] == x;
        assert (g + h)[s] == x;
      }
      if x in All(h) {
        var s :| s in h && h[s] == x;
        assert (g + h)[s] == x;
      }
      if x in All(g + h) {
        var s :| s in g + h && (g + h)[s] == x;
        assert if s in h then h[s] == x else g[s] == x;
      }
    }
  }

  lemma KindAdded(g: Objects, h: Objects, kind: GroupKind)
    requires (forall s <- g :: s.kind != kind) && (forall s <- h :: s.kind == kind)
    ensures OfKind(g + h, kind) == h
    ensures forall k | k != kind :: OfKind(g + h, k) == OfKind(g, k)
    ensures g.Keys !! h.Keys
  {
  }

  lemma DistinctJoined(g: Objects, h: Objects)
    requires Distinct(g) && Distinct(h) && All(g) !! All(h) && g.Keys !! h.Keys
    ensures Distinct(g + h)
  {
    forall s, t | s in g + h && t in g + h && s != t ensures (g + h)[s] != (g + h)[t] {
      if s in g && t in h { assert g[s] in All(g) && h[t] in All(h); }
      if s in h && t in g { assert h[s] in All(h) && g[t] in All(g); }
    }
  }

  function Join(ch: Children, g: Objects, kind: GroupKind, o: ChildObject): Children {
    Children(ch.objects + g, ch.firsts[kind := o])
  }

  lemma ShowsMore(ch: Children, g: Objects, o: ChildObject, c: Cluster, al: Aliases, r: Request, kinds: seq<GroupKind>,
      kind: GroupKind)
    requires kind !in kinds && kind in c.groups
    requires Shows(ch, c, al, r, kinds)
    requires GroupRead(g, o, c, al, r, kind)
    ensures Shows(Join(ch, g, kind, o), c, al, r, kinds + [kind])
  {
    SlotsMore(ch, g, o, c, kinds, kind);
    FieldsMore(ch, g, o, c, al, r, kinds, kind);
    hide Enriched, GroupRead, SlotsAre;
  }

  lemma SlotsMore(ch: Children, g: Objects, o: ChildObject, c: Cluster, kinds: seq<GroupKind>, kind: GroupKind)
    requires kind !in kinds && kind in c.groups
    requires SlotsAre(ch, c, kinds) && forall s :: s in g <==> s.kind == kind && s.name in c.groups[kind]
    ensures SlotsAre(Join(ch, g, kind, o), c, kinds + [kind])
  {
    var more := Join(ch, g, kind, o);
    assert forall k :: k in kinds + [kind] <==> k in kinds || k == kind;
    assert forall k :: k in more.firsts <==> k in ch.firsts || k == kind;
    assert forall s :: s in more.objects <==> s in ch.objects || s in g;
  }

  lemma FieldsMore(ch: Children, g: Objects, o: ChildObject, c: Cluster, al: Aliases, r: Request,
      kinds: seq<GroupKind>, kind: GroupKind)
    requires kind !in kinds && kind in c.groups
    requires Shows(ch, c, al, r, kinds)
    requires GroupRead(g, o, c, al, r, kind)
    ensures forall s <- Join(ch, g, kind, o).objects ::
              s.kind in c.groups && s.name in c.groups[s.kind] &&
              Join(ch, g, kind, o).objects[s].fields == Enriched(c.api, al, r, s.kind, c.groups[s.kind][s.name])
  {
    hide Enriched;
    assert forall s :: s in Join(ch, g, kind, o).objects <==> s in ch.objects || s in g;
  }

  lemma KindIsNew(ch: Children, g: Objects, o: ChildObject, c: Cluster, al: Aliases, r: Request, kinds: seq<GroupKind>,
      kind: GroupKind)
    requires kind !in kinds && kind in c.groups
    requires Shows(ch, c, al, r, kinds)
    requires GroupRead(g, o, c, al, r, kind)
    ensures (forall s <- ch.objects :: s.kind != kind) && (forall s <- g :: s.kind == kind) && kind !in ch.firsts
  {
    hide Enriched;
  }

  lemma SingularsMore(ch: Children, g: Objects, o: ChildObject, kind: GroupKind)
    requires SingularsAre(ch) && kind !in ch.firsts && ch.firsts.Values !! All(g)
    requires (forall s <- ch.objects :: s.kind != kind) && (forall s <- g :: s.kind == kind)
    requires if g != map[] then o in All(g) else o !in All(ch.objects) && o.fields == PLACEHOLDER
    ensures SingularsAre(Join(ch, g, kind, o))
  {
    var more := Join(ch, g, kind, o);
    KindAdded(ch.objects, g, kind);
    AllJoined(ch.objects, g);
    hide All, OfKind;
    forall k <- more.firsts
      ensures if OfKind(more.objects, k) != map[] then more.firsts[k] in All(OfKind(more.objects, k))
              else more.firsts[k] !in All(more.objects) && more.firsts[k].fields == PLACEHOLDER
    {
      if k != kind { assert k in ch.firsts && ch.firsts[k] in ch.firsts.Values; }
    }
  }

  /** The objects reached from the joined map. */
  lemma JoinReaches(ch: Children, g: Objects, o: ChildObject, kind: GroupKind, made: set<ChildObject>)
    requires All(g) <= made && o in made && ch.objects.Keys !! g.Keys
    ensures All(Join(ch, g, kind, o).objects) <= All(ch.objects) + made
    ensures Join(ch, g, kind, o).firsts.Values <= ch.firsts.Values + made
  {
    AllJoined(ch.objects, g);
    hide All;
  }

  /** What was just made is not in the map yet. */
  lemma NewIsApart(ch: Children, g: Objects, o: ChildObject, made: set<ChildObject>)
    requires All(g) <= made && o in made && made !! All(ch.objects) + ch.firsts.Values
    ensures All(ch.objects) !! All(g) && ch.firsts.Values !! All(g) && o !in All(ch.objects)
  {
    hide All;
  }

  lemma GroupIsDistinct(ch: Children, g: Objects, o: ChildObject, c: Cluster, al: Aliases, r: Request, kind: GroupKind)
    requires kind in c.groups && GroupRead(g, o, c, al, r, kind)
    requires Distinct(ch.objects) && All(ch.objects) !! All(g) && ch.objects.Keys !! g.Keys
    ensures Distinct(Join(ch, g, kind, o).objects)
  {
    hide Enriched, All;
    DistinctJoined(ch.objects, g);
  }

  lemma Joined(ch: Children, g: Objects, o: ChildObject, c: Cluster, al: Aliases, r: Request, kinds: seq<GroupKind>,
      kind: GroupKind, made: set<ChildObject>)
    requires kind !in kinds && kind in c.groups && GroupRead(g, o, c, al, r, kind)
    requires Distinct(ch.objects) && Shows(ch, c, al, r, kinds) && SingularsAre(ch)
    requires All(g) <= made && o in made && made !! All(ch.objects) + ch.firsts.Values
    ensures Distinct(Join(ch, g, kind, o).objects) && Shows(Join(ch, g, kind, o), c, al, r, kinds + [kind])
    ensures SingularsAre(Join(ch, g, kind, o))
    ensures All(Join(ch, g, kind, o).objects) <= All(ch.objects) + made
    ensures Join(ch, g, kind, o).firsts.Values <= ch.firsts.Values + made
  {
    hide *;
    KindIsNew(ch, g, o, c, al, r, kinds, kind);
    KindAdded(ch.objects, g, kind);
    NewIsApart(ch, g, o, made);
    GroupIsDistinct(ch, g, o, c, al, r, kind);
    ShowsMore(ch, g, o, c, al, r, kinds, kind);
    FirstIs(g, o, c, al, r, kind);
    SingularsMore(ch, g, o, kind);
    JoinReaches(ch, g, o, kind, made);
  }

  lemma FirstIs(g: Objects, o: ChildObject, c: Cluster, al: Aliases, r: Request, kind: GroupKind)
    requires kind in c.groups && GroupRead(g, o, c, al, r, kind)
    ensures if g != map[] then o in All(g) else o.fields == PLACEHOLDER
  {
    hide Enriched;
  }

  /** Reads one more group. */
  method AddGroup(ch: Children, c: Cluster, al: Aliases, r: Request, ghost kinds: seq<GroupKind>, kind: GroupKind)
    returns (more: Children, ghost added: set<ChildObject>)
    requires Distinct(ch.objects) && Shows(ch, c, al, r, kinds) && SingularsAre(ch)
    requires kind !in kinds && kind in c.groups
    ensures Distinct(more.objects) && Shows(more, c, al, r, kinds + [kind]) && SingularsAre(more)
    ensures fresh(added) && All(more.objects) <= All(ch.objects) + added
              && more.firsts.Values <= ch.firsts.Values + added
  {
    hide Shows, SingularsAre, Distinct, GroupRead;
    var g, o;
    g, o, added := ReadOne(c, al, r, kind);
    assert added !! All(ch.objects) + ch.firsts.Values;
    hide *;
    Joined(ch, g, o, c, al, r, kinds, kind, added);
    more := Join(ch, g, kind, o);
  }

  /** Phase 1: read every declared group, enrich it, store it in the plural and singular. */
  method ReadAll(c: Cluster, al: Aliases, r: Request, kinds: seq<GroupKind>) returns (ch: Children)
    requires Once(kinds)
    ensures Distinct(ch.objects) && fresh(All(ch.objects)) && fresh(ch.firsts.Values)
    ensures Shows(ch, c, al, r, kinds) && SingularsAre(ch)
  {
    ch := Children(map[], map[]);
    ghost var made: set<ChildObject> := {};
    NothingYet(c, al, r);
    hide Shows, SingularsAre, Distinct, All, OfKind, GroupRead;
    for i := 0 to |kinds|
      invariant fresh(made) && All(ch.objects) <= made && ch.firsts.Values <= made
      invariant Distinct(ch.objects) && Shows(ch, c, al, r, kinds[..i]) && SingularsAre(ch)
    {
      assert kinds[..i + 1] == kinds[..i] + [kinds[i]];
      if kinds[i] in c.groups {
        ghost var added: set<ChildObject>;
        ch, added := AddGroup(ch, c, al, r, kinds[..i], kinds[i]);
        made := made + added;
      } else {
        UndeclaredAddsNothing(ch, c, al, r, kinds[..i], kinds[i]);
      }
    }
    assert kinds[..|kinds|] == kinds;
  }

  lemma NothingYet(c: Cluster, al: Aliases, r: Request)
    ensures Distinct(map[]) && All(map[]) == {} && Shows(Children(map[], map[]), c, al, r, [])
              && SingularsAre(Children(map[], map[]))
  {
  }

  lemma UndeclaredAddsNothing(ch: Children, c: Cluster, al: Aliases, r: Request, kinds: seq<GroupKind>, kind: GroupKind)
    requires kind !in c.groups && Shows(ch, c, al, r, kinds)
    ensures Shows(ch, c, al, r, kinds + [kind])
  {
    hide Enriched;
  }

  predicate Once(kinds: seq<GroupKind>) {
    forall i, j | 0 <= i < j < |kinds| :: kinds[i] != kinds[j]
  }

  function Rank(kind: GroupKind): nat {
    match kind
    case Deployments => 0
    case StatefulSets => 1
    case ReplicaSets => 2
    case Customs => 3
    case Services => 4
    case Secrets => 5
    case ConfigMaps => 6
    case Jobs => 7
    case CronJobs => 8
    case Pods => 9
    case ServiceAccounts => 10
    case Namespaces => 11
    case Ingresses => 12
    case HorizontalPodAutoscalers => 13
    case PersistentVolumeClaims => 14
    case PersistentVolumes => 15
    case NetworkPolicies => 16
    case ResourceQuotas => 17
    case LimitRanges => 18
    case ClusterRoles => 19
    case ClusterRoleBindings => 20
  }

  lemma KindAt(kind: GroupKind)
    ensures Rank(kind) < |KINDS| && KINDS[Rank(kind)] == kind
  {
  }

  lemma RankAt(i: nat)
    requires i < |KINDS|
    ensures Rank(KINDS[i]) == i
  {
  }

  lemma KindsOnce()
    ensures Once(KINDS) && forall k :: k in KINDS
  {
    hide Rank;
    forall i, j | 0 <= i < j < |KINDS| ensures KINDS[i] != KINDS[j] {
      RankAt(i);
      RankAt(j);
    }
    forall k ensures k in KINDS { KindAt(k); }
  }

  // ----- Phase 2 -----

  /** What the second phase makes of an object. */
  function AfterSecond(api: Api, al: Aliases, r: Request, kind: GroupKind, f: Fields): Fields {
    if InSecondPhase(kind) then Enriched(api, al, r, kind, f) else f
  }

  lemma OfKindWithin(g: Objects, kind: GroupKind)
    requires Distinct(g)
    ensures Distinct(OfKind(g, kind)) && All(OfKind(g, kind)) <= All(g)
    ensures forall s <- g | s.kind != kind :: g[s] !in All(OfKind(g, kind))
  {
    forall o | o in All(OfKind(g, kind)) ensures o in All(g) {
      var s :| s in OfKind(g, kind) && OfKind(g, kind)[s] == o;
      assert g[s] == o;
    }
  }

  /** The objects after the second phase has gone over some kinds, from what they were before it. */
  ghost predicate Reached(g: Objects, was: map<Slot, Fields>, api: Api, al: Aliases, r: Request, kinds: seq<GroupKind>)
    reads g.Values
  {
    && was.Keys == g.Keys
    && forall s <- g :: g[s].fields == if s.kind in kinds then AfterSecond(api, al, r, s.kind, was[s]) else was[s]
  }

  method EnrichKind(g: Objects, api: Api, al: Aliases, r: Request, kind: GroupKind, ghost was: map<Slot, Fields>,
      ghost kinds: seq<GroupKind>)
    requires Distinct(g) && Reached(g, was, api, al, r, kinds) && kind !in kinds && InSecondPhase(kind)
    modifies All(g)
    ensures Reached(g, was, api, al, r, kinds + [kind])
  {
    hide Enriched;
    var group := OfKind(g, kind);
    OfKindWithin(g, kind);
    hide Distinct, All, InSecondPhase;
    EnrichGroup(api, al, r, kind, group);
    assert forall s <- g | s.kind == kind :: s in group && group[s] == g[s];
    assert forall k :: k in kinds + [kind] <==> k in kinds || k == kind;
  }

  lemma NothingToEnrich(g: Objects, api: Api, al: Aliases, r: Request, kind: GroupKind, was: map<Slot, Fields>,
      kinds: seq<GroupKind>)
    requires Reached(g, was, api, al, r, kinds)
    requires !InSecondPhase(kind) || forall s <- g :: s.kind != kind
    ensures Reached(g, was, api, al, r, kinds + [kind])
  {
    hide Enriched;
  }

  method SecondPhase(ch: Children, c: Cluster, al: Aliases, r: Request, kinds: seq<GroupKind>)
    requires Distinct(ch.objects) && SlotsAre(ch, c, kinds) && Once(kinds)
    modifies All(ch.objects)
    ensures forall s <- ch.objects :: ch.objects[s].fields
              == old(AfterSecond(c.api, al, r, s.kind, ch.objects[s].fields))
  {
    ghost var was := ViewOf(ch).objects;
    assert Reached(ch.objects, was, c.api, al, r, []);
    for i := 0 to |kinds|
      invariant Reached(ch.objects, was, c.api, al, r, kinds[..i])
    {
      hide Enriched, All, Distinct, Reached;
      assert kinds[i] !in kinds[..i] by { NotBefore(kinds, i); }
      assert kinds[..i + 1] == kinds[..i] + [kinds[i]];
      if InSecondPhase(kinds[i]) && kinds[i] in ch.firsts {
        EnrichKind(ch.objects, c.api, al, r, kinds[i], was, kinds[..i]);
      } else {
        NothingToEnrich(ch.objects, c.api, al, r, kinds[i], was, kinds[..i]);
      }
    }
    assert kinds[..|kinds|] == kinds;
  }

  lemma NotBefore(kinds: seq<GroupKind>, i: nat)
    requires Once(kinds) && i < |kinds|
    ensures kinds[i] !in kinds[..i]
  {
  }

  // ----- Both phases -----

  function ViewOf(ch: Children): View
    reads ch.objects.Values, ch.firsts.Values
  {
    View(map s | s in ch.objects :: ch.objects[s].fields, map k | k in ch.firsts :: ch.firsts[k].fields)
  }

  function FirstRequest(crd: Crd): Request {
    if crd.enrichAll then RequestOf(crd) else Request(false, KeysOf(Unconditionals(crd.enrich)))
  }

  /** One pass over the targets of both phases. */
  function WholeRequest(c: Cluster, crd: Crd, kind: GroupKind, view: View): Request {
    if crd.enrichAll || !InSecondPhase(kind) then FirstRequest(crd)
    else Request(false, FirstRequest(crd).enrich + KeysOf(ActiveConditionals(c, crd.enrich, view)))
  }

  // ----- Which targets are asked for -----

  /** x is a target without conditions, or all are asked for. */
  ghost predicate AskedAtOnce(crd: Crd, x: string) {
    crd.enrichAll ||
    exists i :: 0 <= i < |crd.enrich| && crd.enrich[i].key == x
                && |crd.enrich[i].when_| == 0 && |crd.enrich[i].or_| == 0
  }

  /** x is also a target whose gate is open on the view, of a kind that the second phase goes over. */
  ghost predicate Asked(c: Cluster, crd: Crd, kind: GroupKind, view: View, x: string) {
    AskedAtOnce(crd, x) ||
    (kind !in {NetworkPolicies, ResourceQuotas, LimitRanges, ClusterRoles, ClusterRoleBindings} &&
     exists i :: 0 <= i < |crd.enrich| && crd.enrich[i].key == x
                 && (|crd.enrich[i].when_| > 0 || |crd.enrich[i].or_| > 0) && c.gate(crd.enrich[i], view))
  }

  /** Some spelling of what an enricher checks is among the targets asked for: the very one, or, for
      all but the ReplicaSets of Deployments, one of the group the index leads to. */
  ghost predicate SpeltByOne(al: Aliases, e: Enricher, asked: string -> bool) {
    asked(TargetOf(e)) ||
    (e != WithReplicaSets && TargetOf(e) in al.index && al.index[TargetOf(e)] in al.groups &&
     exists a :: a in al.groups[al.index[TargetOf(e)]] && asked(a))
  }

  /** What the result of phase 1 is for gates: every object with what the enrichers of the targets
      without conditions write. */
  ghost predicate ViewShowsTargets(c: Cluster, al: Aliases, crd: Crd, view: View) {
    forall s <- view.objects ::
      && s.kind in c.groups && s.name in c.groups[s.kind]
      && HoldsWrites(c.api, s.kind, c.groups[s.kind][s.name], view.objects[s],
                     e => SpeltByOne(al, e, x => AskedAtOnce(crd, x)))
  }

  /** What every object holds in the end: what the enrichers of just the targets asked for write. */
  ghost predicate ShowsTargets(ch: Children, c: Cluster, al: Aliases, crd: Crd, view: View)
    reads ch.objects.Values
  {
    forall s <- ch.objects ::
      && s.kind in c.groups && s.name in c.groups[s.kind]
      && HoldsWrites(c.api, s.kind, c.groups[s.kind][s.name], ch.objects[s].fields,
                     e => SpeltByOne(al, e, x => Asked(c, crd, s.kind, view, x)))
  }

  lemma FirstRequestIff(crd: Crd, x: string)
    ensures ShouldEnrich(FirstRequest(crd), x) <==> AskedAtOnce(crd, x)
  {
    UnconditionalsAre(crd.enrich, x);
    hide KeysOf, Unconditionals;
  }

  /** x is asked of a kind over both phases exactly when it is a target without conditions or, for the
      kinds of the second phase, one whose gate is open. */
  lemma WholeRequestIff(c: Cluster, crd: Crd, kind: GroupKind, view: View, x: string)
    ensures ShouldEnrich(WholeRequest(c, crd, kind, view), x) <==> Asked(c, crd, kind, view, x)
  {
    FirstRequestIff(crd, x);
    ActiveConditionalsAre(c, crd.enrich, view, x);
    hide KeysOf, ActiveConditionals, FirstRequest, AskedAtOnce;
    FirstRequestAll(crd);
  }

  lemma FirstRequestAll(crd: Crd)
    ensures FirstRequest(crd).enrichAll == crd.enrichAll
    ensures crd.enrichAll ==> forall x :: AskedAtOnce(crd, x)
  {
  }

  lemma OnIffSpelt(al: Aliases, r: Request, e: Enricher, asked: string -> bool)
    requires forall x :: asked(x) <==> ShouldEnrich(r, x)
    ensures SpeltByOne(al, e, asked) <==> IsOn(al, r, e)
  {
    assert e == WithReplicaSets ==> TargetOf(e) == "replicasets";
    hide TargetOf;
  }

  /** An object enriched for a request shows the targets it asks for. */
  lemma EnrichedShows(c: Cluster, al: Aliases, r: Request, kind: GroupKind, f: Fields, asked: string -> bool)
    requires forall x :: asked(x) <==> ShouldEnrich(r, x)
    ensures HoldsWrites(c.api, kind, f, Enriched(c.api, al, r, kind, f), e => SpeltByOne(al, e, asked))
  {
    var on: Enricher -> bool := e => SpeltByOne(al, e, asked);
    forall e | e in EnrichersOf(kind) ensures on(e) <==> IsOn(al, r, e) {
      OnIffSpelt(al, r, e, asked);
    }
    hide *;
    EnrichedHoldsWrites(c.api, al, r, kind, f, on);
  }

  lemma WholeShowsTargets(ch: Children, c: Cluster, al: Aliases, crd: Crd, view: View)
    requires ShowsWhole(ch, c, al, crd, view)
    ensures ShowsTargets(ch, c, al, crd, view)
  {
    hide Enriched, WholeRequest, Asked, HoldsWrites, SpeltByOne;
    forall s | s in ch.objects
      ensures HoldsWrites(c.api, s.kind, c.groups[s.kind][s.name], ch.objects[s].fields,
                          e => SpeltByOne(al, e, x => Asked(c, crd, s.kind, view, x)))
    {
      forall x ensures ShouldEnrich(WholeRequest(c, crd, s.kind, view), x) <==> Asked(c, crd, s.kind, view, x) {
        WholeRequestIff(c, crd, s.kind, view, x);
      }
      EnrichedShows(c, al, WholeRequest(c, crd, s.kind, view), s.kind, c.groups[s.kind][s.name],
                    x => Asked(c, crd, s.kind, view, x));
    }
  }

  lemma FirstViewShowsTargets(ch: Children, c: Cluster, al: Aliases, crd: Crd, view: View)
    requires SlotsAre(ch, c, KINDS) && FirstPhaseView(ch, c, al, crd, view)
    ensures ViewShowsTargets(c, al, crd, view)
  {
    hide Enriched, FirstRequest, AskedAtOnce, HoldsWrites, SpeltByOne;
    forall s | s in view.objects
      ensures s.kind in c.groups && s.name in c.groups[s.kind]
      ensures HoldsWrites(c.api, s.kind, c.groups[s.kind][s.name], view.objects[s],
                          e => SpeltByOne(al, e, x => AskedAtOnce(crd, x)))
    {
      forall x ensures ShouldEnrich(FirstRequest(crd), x) <==> AskedAtOnce(crd, x) {
        FirstRequestIff(crd, x);
      }
      EnrichedShows(c, al, FirstRequest(crd), s.kind, c.groups[s.kind][s.name], x => AskedAtOnce(crd, x));
    }
  }

  /** What one pass over both phases' targets would have made of the objects read. */
  ghost predicate ShowsWhole(ch: Children, c: Cluster, al: Aliases, crd: Crd, view: View)
    reads ch.objects.Values
  {
    && SlotsAre(ch, c, KINDS)
    && forall s <- ch.objects ::
         ch.objects[s].fields
             == Enriched(c.api, al, WholeRequest(c, crd, s.kind, view), s.kind, c.groups[s.kind][s.name])
  }

  /** The gates are evaluated on the objects as the first phase left them, seen through the same
      singulars the result has. */
  ghost predicate FirstPhaseView(ch: Children, c: Cluster, al: Aliases, crd: Crd, view: View)
    requires SlotsAre(ch, c, KINDS)
  {
    && view.objects
        == (map s | s in ch.objects :: Enriched(c.api, al, FirstRequest(crd), s.kind, c.groups[s.kind][s.name]))
    && view.firsts.Keys == ch.firsts.Keys
    && forall k <- ch.firsts, s <- ch.objects | ch.firsts[k] == ch.objects[s] :: view.firsts[k] == view.objects[s]
  }

  /** What the first phase leaves, and what the gates see of it. */
  lemma AfterFirst(ch: Children, c: Cluster, al: Aliases, crd: Crd)
    requires Distinct(ch.objects) && SingularsAre(ch) && Shows(ch, c, al, FirstRequest(crd), KINDS)
    ensures FirstPhaseView(ch, c, al, crd, ViewOf(ch))
  {
    hide Enriched, Distinct, SingularsAre, FirstRequest;
    ViewedObjects(ch, c, al, FirstRequest(crd), KINDS);
    assert forall k <- ch.firsts :: ViewOf(ch).firsts[k] == ch.firsts[k].fields;
    hide Shows, SlotsAre;
  }

  lemma ViewedObjects(ch: Children, c: Cluster, al: Aliases, r: Request, kinds: seq<GroupKind>)
    requires Shows(ch, c, al, r, kinds)
    ensures forall s <- ch.objects :: s.kind in c.groups && s.name in c.groups[s.kind]
    ensures ViewOf(ch).objects == map s | s in ch.objects :: Enriched(c.api, al, r, s.kind, c.groups[s.kind][s.name])
  {
    hide Enriched;
  }

  /** No target is active when the second phase is skipped. */
  lemma NothingMore(c: Cluster, crd: Crd, kind: GroupKind, view: View)
    requires crd.enrichAll || |crd.enrich| <= |Unconditionals(crd.enrich)|
               || ActiveConditionals(c, crd.enrich, view) == []
    ensures WholeRequest(c, crd, kind, view) == FirstRequest(crd)
  {
    FewerIffConditional(crd.enrich);
    if forall i | 0 <= i < |crd.enrich| :: Unconditional(crd.enrich[i]) {
      NoConditionalsNoneActive(c, crd.enrich, view);
    }
    assert FirstRequest(crd).enrich + [] == FirstRequest(crd).enrich;
  }

  lemma OnePassDone(ch: Children, c: Cluster, al: Aliases, crd: Crd, view: View)
    requires Shows(ch, c, al, FirstRequest(crd), KINDS)
    requires crd.enrichAll || |crd.enrich| <= |Unconditionals(crd.enrich)|
               || ActiveConditionals(c, crd.enrich, view) == []
    ensures ShowsWhole(ch, c, al, crd, view)
  {
    hide Enriched, ActiveConditionals, Unconditionals, WholeRequest, FirstRequest, SlotsAre;
    forall kind ensures WholeRequest(c, crd, kind, view) == FirstRequest(crd) {
      NothingMore(c, crd, kind, view);
    }
  }

  /** The two passes over an object are the one. */
  lemma WholePass(c: Cluster, al: Aliases, crd: Crd, kind: GroupKind, view: View, f: Fields)
    requires !crd.enrichAll
    ensures AfterSecond(c.api, al, Request(false, KeysOf(ActiveConditionals(c, crd.enrich, view))), kind,
                        Enriched(c.api, al, FirstRequest(crd), kind, f))
         == Enriched(c.api, al, WholeRequest(c, crd, kind, view), kind, f)
  {
    hide Enriched;
    TwoPhasesAreOne(c.api, al, FirstRequest(crd).enrich, KeysOf(ActiveConditionals(c, crd.enrich, view)), kind, f);
  }

  method ReadChildren(c: Cluster, al: Aliases, crd: Crd) returns (ch: Children, ghost view: View)
    ensures Distinct(ch.objects) && SingularsAre(ch)
    ensures ShowsWhole(ch, c, al, crd, view) && FirstPhaseView(ch, c, al, crd, view)
    // In terms of the targets: what gates saw, and what every object holds in the end.
    ensures ViewShowsTargets(c, al, crd, view) && ShowsTargets(ch, c, al, crd, view)
  {
    ch, view := ReadBothPhases(c, al, crd);
    hide *;
    WholeShowsTargets(ch, c, al, crd, view);
    FirstViewShowsTargets(ch, c, al, crd, view);
  }

  method ReadBothPhases(c: Cluster, al: Aliases, crd: Crd) returns (ch: Children, ghost view: View)
    ensures Distinct(ch.objects) && SingularsAre(ch)
    ensures SlotsAre(ch, c, KINDS)
    ensures ShowsWhole(ch, c, al, crd, view) && FirstPhaseView(ch, c, al, crd, view)
  {
    KindsOnce();
    ch := ReadAll(c, al, FirstRequest(crd), KINDS);
    view := ViewOf(ch);
    AfterFirst(ch, c, al, crd);
    if !crd.enrichAll && |crd.enrich| > |Unconditionals(crd.enrich)| {
      var active := ActiveConditionals(c, crd.enrich, ViewOf(ch));
      if |active| > 0 {
        SecondPhase(ch, c, al, Request(false, KeysOf(active)), KINDS);
        forall s <- ch.objects
          ensures ch.objects[s].fields
                    == Enriched(c.api, al, WholeRequest(c, crd, s.kind, view), s.kind, c.groups[s.kind][s.name])
        {
          WholePass(c, al, crd, s.kind, view, c.groups[s.kind][s.name]);
        }
        return;
      }
    }
    OnePassDone(ch, c, al, crd, view);
  }
}
