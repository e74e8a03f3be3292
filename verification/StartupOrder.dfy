/** The order CRDs are started in: Kahn's algorithm over the dependency graph
    (pkg/katalog/dependencies.go). */
module StartupOrder {
  import opened Common
  import opened Sorting
  import opened StringOrder
  import opened DependencyGraph

  function Elements(s: seq<string>): set<string> { set x | x in s }

  /** The dependencies of n that have not started. */
  function Missing(crds: Crds, started: set<string>, n: string): set<string> {
    if n in crds then crds[n].dependsOn.Keys - started else {}
  }

  /** What may start next. */
  function Ready(crds: Crds, started: set<string>): set<string> {
    set n | n in crds && n !in started && Missing(crds, started, n) == {}
  }

  ghost predicate Least(x: string, s: set<string>) {
    x in s && forall y <- s :: AtMost(x, y)
  }

  /** Every CRD once, each being the alphabetically first that could start at that point. Nothing
      here depends on the order Go ranges over its maps in. */
  ghost predicate IsStartupOrder(crds: Crds, order: seq<string>) {
    Enumerates(order, crds.Keys) && GreedyPrefix(crds, order)
  }

  ghost predicate GreedyPrefix(crds: Crds, order: seq<string>) {
    forall i | 0 <= i < |order| :: Least(order[i], Ready(crds, Elements(order[..i])))
  }

  /** Dependencies always lead to a lower rank. */
  ghost predicate Ranks(crds: Crds, rank: map<string, nat>) {
    && rank.Keys == crds.Keys
    && forall m <- crds :: forall d <- crds[m].dependsOn :: d in crds && rank[d] < rank[m]
  }

  ghost predicate Acyclic(crds: Crds) {
    exists rank: map<string, nat> :: Ranks(crds, rank)
  }

  /** When the dependencies are acyclic, GetDependents returns what its name says exactly for a CRD
      that neither depends on another nor is depended on. */
  lemma GetDependentsIsRightIff(crds: Crds, g: Graph, name: string)
    requires GraphOf(crds, g) && Acyclic(crds) && name in crds
    ensures Dependents(g.edges, name) == DependingOn(crds, name)
       <==> crds[name].dependsOn == map[] && DependingOn(crds, name) == {}
  {
    DependentsAreDependencies(crds, g, name);
    hide GraphOf;
    var rank: map<string, nat> :| Ranks(crds, rank);
    forall d | d in crds[name].dependsOn ensures d !in DependingOn(crds, name) {
      assert rank[d] < rank[name];
    }
    if Dependents(g.edges, name) == DependingOn(crds, name) {
      assert crds[name].dependsOn.Keys == {};
    }
  }

  /** Two CRDs, of which "b" depends on "a". */
  const PAIR: Crds := map["a" := Crd("", "", map[]), "b" := Crd("", "", map["a" := ""])]

  const PAIR_GRAPH := Graph(map["a" := ["b"]], map["a" := 0, "b" := 1], map["a" := 1, "b" := 0])

  lemma PairDepends()
    ensures PAIR.Keys == {"a", "b"} && PAIR["a"].dependsOn.Keys == {} && PAIR["b"].dependsOn.Keys == {"a"}
    ensures DependingOn(PAIR, "a") == {"b"} && DependingOn(PAIR, "b") == {}
  {
    assert "a"[0] != "b"[0];
    assert PAIR["b"].dependsOn == map["a" := ""];
  }

  lemma PairIsAcyclic()
    ensures Acyclic(PAIR)
  {
    PairDepends();
    assert "a"[0] != "b"[0];
    assert Ranks(PAIR, map["a" := 0, "b" := 1]);
  }

  lemma PairEdges(d: string, m: string)
    ensures d in PAIR_GRAPH.edges && m in PAIR_GRAPH.edges[d] <==> m in PAIR && d in PAIR[m].dependsOn
  {
    PairDepends();
    assert d in PAIR_GRAPH.edges <==> d == "a";
    assert PAIR_GRAPH.edges["a"] == ["b"];
    hide *;
    if m == "a" { assert d !in PAIR["a"].dependsOn.Keys; }
    if m == "b" { assert d in PAIR["b"].dependsOn.Keys <==> d == "a"; }
  }

  lemma PairHasAGraph()
    ensures GraphOf(PAIR, PAIR_GRAPH)
  {
    PairDepends();
    assert "a"[0] != "b"[0];
    forall d, m ensures d in PAIR_GRAPH.edges && m in PAIR_GRAPH.edges[d] <==> m in PAIR && d in PAIR[m].dependsOn {
      PairEdges(d, m);
    }
    assert InDegree(PAIR, "a") == 0 && InDegree(PAIR, "b") == 1;
    assert OutDegree(PAIR, "a") == 1 && OutDegree(PAIR, "b") == 0;
  }

  /** Asked for the dependents of "a" the program answers nothing, and for those of "b", "a". */
  lemma GetDependentsIsReversed()
    ensures Acyclic(PAIR) && DependingOn(PAIR, "a") == {"b"} && DependingOn(PAIR, "b") == {}
    ensures exists g :: GraphOf(PAIR, g)
    ensures forall g | GraphOf(PAIR, g) :: Dependents(g.edges, "a") == {} && Dependents(g.edges, "b") == {"a"}
  {
    PairDepends();
    hide *;
    PairIsAcyclic();
    PairHasAGraph();
    forall g | GraphOf(PAIR, g) ensures Dependents(g.edges, "a") == {} && Dependents(g.edges, "b") == {"a"} {
      DependentsAreDependencies(PAIR, g, "a");
      DependentsAreDependencies(PAIR, g, "b");
    }
  }

  // ----- What a startup order is good for -----

  /** Every dependency starts before its dependents. */
  lemma DependenciesStartFirst(crds: Crds, order: seq<string>, i: nat, d: string)
    requires IsStartupOrder(crds, order) && i < |order| && order[i] in crds && d in crds[order[i]].dependsOn
    ensures d in order[..i]
  {
    assert Least(order[i], Ready(crds, Elements(order[..i])));
    assert d !in Missing(crds, Elements(order[..i]), order[i]);
    assert d in Elements(order[..i]);
  }

  /** CRDs that depend on nothing start in ascending order of their names. */
  lemma IndependentCrdsStartByName(crds: Crds, order: seq<string>, i: nat, j: nat)
    requires IsStartupOrder(crds, order) && (forall n <- crds :: |crds[n].dependsOn| == 0) && i < j < |order|
    ensures AtMost(order[i], order[j]) && order[i] != order[j]
  {
    var started := Elements(order[..i]);
    assert order[j] in order && order[j] in crds;
    assert order[j] !in order[..i];
    assert Missing(crds, started, order[j]) == {};
    assert Least(order[i], Ready(crds, started)) && order[j] in Ready(crds, started);
  }

  lemma {:induction false} GreedyPrefixesAgree(crds: Crds, a: seq<string>, b: seq<string>, n: nat)
    requires GreedyPrefix(crds, a) && GreedyPrefix(crds, b) && n <= |a| && n <= |b|
    ensures a[..n] == b[..n]
  {
    hide Ready, Elements;
    if n > 0 {
      GreedyPrefixesAgree(crds, a, b, n - 1);
      var ready := Ready(crds, Elements(a[..n - 1]));
      assert Least(a[n - 1], ready) && Least(b[n - 1], ready);
      AtMostAntisymmetric(a[n - 1], b[n - 1]);
      assert a[..n] == a[..n - 1] + [a[n - 1]] && b[..n] == b[..n - 1] + [b[n - 1]];
    }
  }

  lemma OrderParts(crds: Crds, order: seq<string>)
    requires IsStartupOrder(crds, order)
    ensures Enumerates(order, crds.Keys) && GreedyPrefix(crds, order)
  {
  }

  /** There is one startup order at most. */
  lemma StartupOrderIsUnique(crds: Crds, a: seq<string>, b: seq<string>)
    requires IsStartupOrder(crds, a) && IsStartupOrder(crds, b)
    ensures a == b
  {
    hide *;
    OrderParts(crds, a);
    OrderParts(crds, b);
    EnumerationIsTheSet(a, crds.Keys);
    EnumerationIsTheSet(b, crds.Keys);
    GreedyPrefixesAgree(crds, a, b, |a|);
    assert a[..|a|] == a && b[..|a|] == b;
  }

  lemma PositionsRank(crds: Crds, order: seq<string>, rank: map<string, nat>)
    requires IsStartupOrder(crds, order) && crds.Keys == rank.Keys
    requires forall n <- crds :: n in order && rank[n] == IndexIn(order, n)
    ensures Ranks(crds, rank)
  {
    hide IsStartupOrder, IndexIn;
    forall m, d | m in crds && d in crds[m].dependsOn ensures d in crds && rank[d] < rank[m] {
      EarlierIndex(crds, order, m, d);
    }
  }

  /** Positions in a startup order are ranks. */
  lemma StartupOrderMeansAcyclic(crds: Crds, order: seq<string>)
    requires IsStartupOrder(crds, order)
    ensures Acyclic(crds)
  {
    OrderParts(crds, order);
    assert forall n <- crds :: n in order;
    hide IsStartupOrder, Enumerates, GreedyPrefix, IndexIn, Ranks;
    PositionsRank(crds, order, map n | n in crds :: IndexIn(order, n));
  }

  lemma EarlierIndex(crds: Crds, order: seq<string>, m: string, d: string)
    requires IsStartupOrder(crds, order) && m in order && m in crds && d in crds[m].dependsOn
    ensures d in order && d in crds && IndexIn(order, d) < IndexIn(order, m)
  {
    var i := IndexIn(order, m);
    DependenciesStartFirst(crds, order, i, d);
    OrderParts(crds, order);
    hide IsStartupOrder, GreedyPrefix, IndexIn;
    assert order[..i] <= order && d in order;
    assert d in crds.Keys && NoDuplicates(order);
    hide Enumerates, NoDuplicates;
    EarlierInPrefix(order, i, d);
  }

  lemma EarlierInPrefix(order: seq<string>, i: nat, d: string)
    requires NoDuplicates(order) && i <= |order| && d in order[..i]
    ensures d in order && IndexIn(order, d) < i
  {
    var j: nat :| j < i && order[..i][j] == d;
    assert order[j] == d;
    OnlyIndex(order, j);
    hide IndexIn;
  }

  lemma OnlyIndex(order: seq<string>, j: nat)
    requires NoDuplicates(order) && j < |order|
    ensures IndexIn(order, order[j]) == j
  {
  }

  ghost function IndexIn(order: seq<string>, n: string): (i: nat)
    requires n in order
    ensures i < |order| && order[i] == n
  {
    var i: nat :| i < |order| && order[i] == n;
    i
  }

  ghost predicate Stuck(crds: Crds, left: set<string>) {
    left <= crds.Keys && forall m <- left :: crds[m].dependsOn.Keys * left != {}
  }

  lemma RankDrops(crds: Crds, rank: map<string, nat>, m: string, d: string)
    requires Ranks(crds, rank) && m in crds && d in crds[m].dependsOn
    ensures d in crds && rank[d] < rank[m]
  {
  }

  /** If everything left waits for something left, no ranking exists. */
  lemma {:induction false} StuckMeansNoRank(crds: Crds, rank: map<string, nat>, left: set<string>, n: string)
    requires n in left && Stuck(crds, left) && n in rank
    ensures !Ranks(crds, rank)
    decreases rank[n]
  {
    hide Ranks;
    if Ranks(crds, rank) {
      var d :| d in crds[n].dependsOn.Keys * left;
      RankDrops(crds, rank, n, d);
      assert d in rank by { RankedKeys(crds, rank); }
      StuckMeansNoRank(crds, rank, left, d);
    }
  }

  lemma RankedKeys(crds: Crds, rank: map<string, nat>)
    requires Ranks(crds, rank)
    ensures rank.Keys == crds.Keys
  {
  }

  // ----- Kahn's algorithm -----

  ghost predicate DegreesAre(crds: Crds, started: set<string>, inDegree: map<string, nat>) {
    inDegree.Keys == crds.Keys && forall n <- crds :: inDegree[n] == |Missing(crds, started, n)|
  }

  /** The in-degrees after the first j neighbours of `current`. */
  ghost predicate MidDegrees(crds: Crds, started: set<string>, current: string, rest: seq<string>,
      inDegree: map<string, nat>) {
    && inDegree.Keys == crds.Keys
    && (forall n <- crds ::
          inDegree[n] == if n in rest then |Missing(crds, started, n)| else |Missing(crds, started + {current}, n)|)
  }

  /** The queue after the first j neighbours of `current`. */
  ghost predicate MidQueue(crds: Crds, started: set<string>, current: string, done: seq<string>, queue0: seq<string>,
      queue: seq<string>) {
    && NoDuplicates(queue)
    && (forall n :: n in queue <==> n in queue0 || (n in done && Missing(crds, started + {current}, n) == {}))
  }

  lemma DegreeDrops(crds: Crds, started: set<string>, current: string, n: string)
    requires n in crds
    ensures current in crds[n].dependsOn && current !in started ==>
              |Missing(crds, started + {current}, n)| == |Missing(crds, started, n)| - 1
    ensures current !in crds[n].dependsOn ==> Missing(crds, started + {current}, n) == Missing(crds, started, n)
  {
    if current in crds[n].dependsOn && current !in started {
      assert Missing(crds, started, n) == Missing(crds, started + {current}, n) + {current};
    }
  }

  /** What is ready once `current` has started: the others that were, and its dependents that
      waited for nothing else. */
  lemma ReadyNext(crds: Crds, started: set<string>, current: string, neighbors: set<string>)
    requires current in Ready(crds, started)
    requires forall m <- started :: m in crds && Missing(crds, started, m) == {}
    requires forall n :: n in neighbors <==> n in crds && current in crds[n].dependsOn
    ensures Ready(crds, started + {current})
         == Ready(crds, started) - {current} + (set n | n in neighbors && Missing(crds, started + {current}, n) == {})
    ensures Ready(crds, started) !! neighbors && current !in neighbors
  {
    forall n | n in crds ensures Missing(crds, started + {current}, n) == Missing(crds, started, n) - {current} {
    }
    forall n | n in neighbors ensures current in Missing(crds, started, n) && n !in started && n != current {
    }
    forall n | n in crds && n !in neighbors ensures Missing(crds, started + {current}, n) == Missing(crds, started, n) {
      assert current !in crds[n].dependsOn;
    }
  }

  lemma MidStart(crds: Crds, started: set<string>, current: string, neighbors: seq<string>, inDegree: map<string, nat>)
    requires DegreesAre(crds, started, inDegree)
    requires forall n :: n in neighbors <==> n in crds && current in crds[n].dependsOn
    ensures MidDegrees(crds, started, current, neighbors, inDegree)
  {
    forall n | n in crds && n !in neighbors ensures Missing(crds, started, n) == Missing(crds, started + {current}, n) {
      DegreeDrops(crds, started, current, n);
    }
  }

  lemma MidDegreesStep(crds: Crds, started: set<string>, current: string, n: string, rest: seq<string>,
      inDegree: map<string, nat>)
    requires MidDegrees(crds, started, current, [n] + rest, inDegree) && n !in rest
    requires n in crds && current in crds[n].dependsOn && current !in started
    ensures n in inDegree && inDegree[n] == |Missing(crds, started + {current}, n)| + 1
    ensures MidDegrees(crds, started, current, rest, inDegree[n := inDegree[n] - 1])
  {
    DegreeDrops(crds, started, current, n);
    hide Missing;
    assert n in [n] + rest;
  }

  lemma MidQueueStep(crds: Crds, started: set<string>, current: string, done: seq<string>, n: string,
      queue0: seq<string>, queue: seq<string>)
    requires MidQueue(crds, started, current, done, queue0, queue) && n !in done && n !in queue0
    ensures MidQueue(crds, started, current, done + [n], queue0,
                     if |Missing(crds, started + {current}, n)| == 0 then queue + [n] else queue)
  {
    hide Missing;
    assert forall m :: m in done + [n] <==> m in done || m == n;
  }

  lemma SplitAt(s: seq<string>, j: nat)
    requires NoDuplicates(s) && j < |s|
    ensures s[j..] == [s[j]] + s[j + 1..] && s[..j + 1] == s[..j] + [s[j]]
    ensures s[j] !in s[..j] && s[j] !in s[j + 1..]
  {
  }

  method Update(ghost crds: Crds, ghost started: set<string>, ghost current: string, neighbors: seq<string>,
                inDegree0: map<string, nat>, queue0: seq<string>)
    returns (inDegree: map<string, nat>, queue: seq<string>)
    requires DegreesAre(crds, started, inDegree0) && current !in started
    requires NoDuplicates(neighbors) && forall n :: n in neighbors <==> n in crds && current in crds[n].dependsOn
    requires NoDuplicates(queue0) && forall n <- neighbors :: n !in queue0
    ensures DegreesAre(crds, started + {current}, inDegree)
    ensures MidQueue(crds, started, current, neighbors, queue0, queue)
  {
    inDegree, queue := inDegree0, queue0;
    MidStart(crds, started, current, neighbors, inDegree);
    assert MidQueue(crds, started, current, [], queue0, queue);
    hide Missing, MidDegrees, MidQueue, DegreesAre, NoDuplicates;
    for j := 0 to |neighbors|
      invariant MidDegrees(crds, started, current, neighbors[j..], inDegree)
      invariant MidQueue(crds, started, current, neighbors[..j], queue0, queue)
    {
      var n := neighbors[j];
      assert n in neighbors;
      SplitAt(neighbors, j);
      MidDegreesStep(crds, started, current, n, neighbors[j + 1..], inDegree);
      MidQueueStep(crds, started, current, neighbors[..j], n, queue0, queue);
      inDegree := inDegree[n := inDegree[n] - 1];
      if inDegree[n] == 0 {
        queue := queue + [n];
      }
    }
    assert neighbors[..|neighbors|] == neighbors && neighbors[|neighbors|..] == [];
    assert DegreesAre(crds, started + {current}, inDegree) by { MidEnd(crds, started, current, inDegree); }
  }

  lemma MidEnd(crds: Crds, started: set<string>, current: string, inDegree: map<string, nat>)
    requires MidDegrees(crds, started, current, [], inDegree)
    ensures DegreesAre(crds, started + {current}, inDegree)
  {
  }

  /** The first queue, after the names in `done`. */
  ghost predicate FirstPart(crds: Crds, done: seq<string>, queue: seq<string>) {
    && Sorted(queue) && NoDuplicates(queue)
    && forall n :: n in queue <==> n in done && Missing(crds, {}, n) == {}
  }

  lemma FirstPartStep(crds: Crds, done: seq<string>, n: string, queue: seq<string>)
    requires FirstPart(crds, done, queue) && Sorted(done + [n]) && n !in done
    ensures FirstPart(crds, done + [n], if |Missing(crds, {}, n)| == 0 then queue + [n] else queue)
  {
    hide Missing, AtMost;
    forall i | 0 <= i < |queue| ensures AtMost(queue[i], n) {
      assert queue[i] in done;
      var j :| 0 <= j < |done| && done[j] == queue[i];
      assert (done + [n])[j] == queue[i] && (done + [n])[|done|] == n;
    }
  }

  lemma FirstPartEnd(crds: Crds, names: seq<string>, queue: seq<string>)
    requires FirstPart(crds, names, queue) && Enumerates(names, crds.Keys)
    ensures Sorted(queue) && Enumerates(queue, Ready(crds, {}))
  {
  }

  lemma PrefixOfSorted(names: seq<string>, i: nat)
    requires Sorted(names) && NoDuplicates(names) && i < |names|
    ensures Sorted(names[..i] + [names[i]]) && names[i] !in names[..i]
    ensures names[..i + 1] == names[..i] + [names[i]]
  {
    assert names[..i + 1] == names[..i] + [names[i]];
  }

  /** The nodes that wait for nothing, in alphabetical order. */
  method FirstQueue(ghost crds: Crds, inDegree: map<string, nat>) returns (queue: seq<string>)
    requires DegreesAre(crds, {}, inDegree)
    ensures Sorted(queue) && Enumerates(queue, Ready(crds, {}))
  {
    var names := Ranged(inDegree.Keys);
    SortedNames(crds, inDegree, names);
    names := Sort(names);
    queue := [];
    assert FirstPart(crds, [], queue);
    hide AtMost, Sorted, Enumerates, FirstPart, Missing, Sort, DegreesAre, Ready;
    for i := 0 to |names|
      invariant FirstPart(crds, names[..i], queue)
    {
      PrefixOfSorted(names, i);
      FirstPartStep(crds, names[..i], names[i], queue);
      DegreeOf(crds, inDegree, names, i);
      if inDegree[names[i]] == 0 {
        queue := queue + [names[i]];
      }
    }
    assert names[..|names|] == names;
    FirstPartEnd(crds, names, queue);
  }

  lemma SortedNames(crds: Crds, inDegree: map<string, nat>, names: seq<string>)
    requires DegreesAre(crds, {}, inDegree) && Enumerates(names, inDegree.Keys)
    ensures Sorted(Sort(names)) && Enumerates(Sort(names), crds.Keys) && NoDuplicates(Sort(names))
  {
    SortKeepsEnumeration(names, crds.Keys);
  }

  /** A name waits for nothing exactly when its degree is zero. */
  lemma DegreeOf(crds: Crds, inDegree: map<string, nat>, names: seq<string>, i: nat)
    requires DegreesAre(crds, {}, inDegree) && Enumerates(names, crds.Keys) && i < |names|
    ensures names[i] in inDegree && names[i] in crds
    ensures inDegree[names[i]] == 0 <==> Missing(crds, {}, names[i]) == {}
  {
    assert names[i] in names;
  }

  lemma EnumerationParts(s: seq<string>, elements: set<string>)
    requires Enumerates(s, elements)
    ensures NoDuplicates(s) && forall x :: x in s <==> x in elements
  {
  }

  ghost predicate Progress(crds: Crds, order: seq<string>, queue: seq<string>, inDegree: map<string, nat>) {
    && NoDuplicates(order) && Elements(order) <= crds.Keys && GreedyPrefix(crds, order)
    && DegreesAre(crds, Elements(order), inDegree)
    && Sorted(queue) && Enumerates(queue, Ready(crds, Elements(order)))
  }

  lemma StartedWaitForNothing(crds: Crds, order: seq<string>, m: string)
    requires GreedyPrefix(crds, order) && m in order
    ensures m in crds && Missing(crds, Elements(order), m) == {}
  {
    var i :| 0 <= i < |order| && order[i] == m;
    assert Least(m, Ready(crds, Elements(order[..i])));
    assert Elements(order[..i]) <= Elements(order);
  }

  lemma GreedyStep(crds: Crds, order: seq<string>, queue: seq<string>)
    requires NoDuplicates(order) && Elements(order) <= crds.Keys && GreedyPrefix(crds, order)
    requires Sorted(queue) && Enumerates(queue, Ready(crds, Elements(order))) && queue != []
    ensures Elements(order + [queue[0]]) == Elements(order) + {queue[0]}
    ensures queue[0] in Ready(crds, Elements(order)) && queue[0] !in order
    ensures NoDuplicates(order + [queue[0]]) && Elements(order + [queue[0]]) <= crds.Keys
    ensures GreedyPrefix(crds, order + [queue[0]])
  {
    var current, started := queue[0], Elements(order);
    FirstIsReady(queue, Ready(crds, started));
    assert current !in started && current in crds;
    ElementsAdd(order, current);
    hide Ready, Sorted, Enumerates, Least;
    var order' := order + [current];
    forall i | 0 <= i < |order'| ensures Least(order'[i], Ready(crds, Elements(order'[..i]))) {
      if i < |order| {
        assert order'[..i] == order[..i];
        assert Least(order[i], Ready(crds, Elements(order[..i])));
      } else {
        assert order'[..i] == order;
      }
    }
  }

  lemma FirstIsReady(queue: seq<string>, ready: set<string>)
    requires Sorted(queue) && Enumerates(queue, ready) && queue != []
    ensures Least(queue[0], ready)
  {
    assert queue[0] in queue;
    hide Sorted;
    forall y | y in ready ensures AtMost(queue[0], y) {
      assert y in queue;
      LeastFirst(queue, y);
    }
  }

  lemma ElementsAdd(order: seq<string>, x: string)
    ensures Elements(order + [x]) == Elements(order) + {x}
    ensures NoDuplicates(order) && x !in order ==> NoDuplicates(order + [x])
    ensures x in Elements(order) <==> x in order
  {
    assert forall y :: y in order + [x] <==> y in order || y == x;
  }

  lemma DependentsListed(crds: Crds, g: Graph, name: string)
    requires GraphOf(crds, g)
    ensures Enumerates(if name in g.edges then g.edges[name] else [], set n | n in crds && name in crds[n].dependsOn)
  {
    EdgesAre(crds, g, name);
    hide GraphOf;
    var list := if name in g.edges then g.edges[name] else [];
    assert NoDuplicates(list);
    hide NoDuplicates;
    forall n ensures n in list <==> n in crds && name in crds[n].dependsOn {
    }
  }

  lemma EdgesAre(crds: Crds, g: Graph, name: string)
    requires GraphOf(crds, g)
    ensures forall n :: name in g.edges && n in g.edges[name] <==> n in crds && name in crds[n].dependsOn
    ensures name in g.edges ==> NoDuplicates(g.edges[name])
  {
    hide InDegree, OutDegree, NoDuplicates;
  }

  /** What the inner loop is given. */
  lemma NeighborsReady(crds: Crds, g: Graph, order: seq<string>, queue: seq<string>, neighbors: seq<string>)
    requires GraphOf(crds, g) && GreedyPrefix(crds, order)
    requires Enumerates(queue, Ready(crds, Elements(order))) && queue != []
    requires neighbors == Sort(if queue[0] in g.edges then g.edges[queue[0]] else [])
    ensures NoDuplicates(neighbors) && forall n :: n in neighbors <==> n in crds && queue[0] in crds[n].dependsOn
    ensures NoDuplicates(queue[1..]) && forall n <- neighbors :: n !in queue[1..]
    ensures forall n :: n in queue[1..] <==> n in Ready(crds, Elements(order)) && n != queue[0]
  {
    var current, started := queue[0], Elements(order);
    var list := if current in g.edges then g.edges[current] else [];
    var dependents := set n | n in crds && current in crds[n].dependsOn;
    DependentsListed(crds, g, current);
    hide GraphOf;
    SortKeepsEnumeration(list, dependents);
    TailEnumerates(queue, Ready(crds, started));
    assert queue[0] in queue;
    hide Sort;
    forall m | m in started ensures m in crds && Missing(crds, started, m) == {} {
      StartedWaitForNothing(crds, order, m);
    }
    hide GreedyPrefix, Least;
    ReadyNext(crds, started, current, dependents);
  }

  /** The queue after the inner loop is what is ready then. */
  lemma QueueReady(crds: Crds, order: seq<string>, current: string, neighbors: seq<string>, queue0: seq<string>,
      queue: seq<string>)
    requires GreedyPrefix(crds, order) && current in Ready(crds, Elements(order))
    requires forall n :: n in neighbors <==> n in crds && current in crds[n].dependsOn
    requires forall n :: n in queue0 <==> n in Ready(crds, Elements(order)) && n != current
    requires MidQueue(crds, Elements(order), current, neighbors, queue0, queue)
    ensures Sorted(Sort(queue)) && Enumerates(Sort(queue), Ready(crds, Elements(order) + {current}))
  {
    var started := Elements(order);
    var dependents := set n | n in neighbors;
    forall m | m in started ensures m in crds && Missing(crds, started, m) == {} {
      StartedWaitForNothing(crds, order, m);
    }
    ReadyNext(crds, started, current, dependents);
    SortKeepsEnumeration(queue, Ready(crds, started + {current}));
  }

  /** When nothing is ready, what has not started is stuck. */
  lemma NothingReadyMeansStuck(crds: Crds, started: set<string>)
    requires Closed(crds) && Ready(crds, started) == {}
    ensures Stuck(crds, crds.Keys - started)
  {
    var left := crds.Keys - started;
    forall m | m in left ensures crds[m].dependsOn.Keys * left != {} {
      assert m !in Ready(crds, started);
      var d :| d in Missing(crds, started, m);
      assert d in crds[m].dependsOn.Keys * left;
    }
  }

  lemma StuckMeansCyclic(crds: Crds, left: set<string>)
    requires Stuck(crds, left) && left != {}
    ensures !Acyclic(crds)
  {
    hide Stuck, Ranks;
    var n :| n in left;
    assert n in crds.Keys by { StuckKeys(crds, left); }
    forall rank: map<string, nat> ensures !Ranks(crds, rank) {
      if Ranks(crds, rank) {
        RankedKeys(crds, rank);
        StuckMeansNoRank(crds, rank, left, n);
      }
    }
  }

  lemma StuckKeys(crds: Crds, left: set<string>)
    requires Stuck(crds, left)
    ensures left <= crds.Keys
  {
  }

  lemma SubsetOfSameSize<T>(a: set<T>, b: set<T>)
    requires a <= b && |a| == |b|
    ensures a == b
  {
    assert |b - a| == |b| - |a|;
  }

  lemma FullWhenAsMany(order: seq<string>, names: set<string>)
    requires NoDuplicates(order) && Elements(order) <= names
    ensures |order| == |names| ==> Enumerates(order, names)
    ensures |order| != |names| ==> names - Elements(order) != {}
  {
    assert Enumerates(order, Elements(order));
    EnumerationIsTheSet(order, Elements(order));
    if |order| == |names| {
      SubsetOfSameSize(Elements(order), names);
    } else {
      assert names == Elements(order) + (names - Elements(order));
    }
  }

  lemma ProgressStart(crds: Crds, g: Graph, queue: seq<string>)
    requires GraphOf(crds, g) && Sorted(queue) && Enumerates(queue, Ready(crds, {}))
    ensures Progress(crds, [], queue, g.inDegree)
  {
    hide Ready, Sorted, Enumerates;
    assert Elements([]) == {};
  }

  lemma ProgressParts(crds: Crds, order: seq<string>, inDegree: map<string, nat>)
    requires Progress(crds, order, [], inDegree)
    ensures NoDuplicates(order) && Elements(order) <= crds.Keys && GreedyPrefix(crds, order)
    ensures Ready(crds, Elements(order)) == {}
  {
    hide Ready, GreedyPrefix, DegreesAre;
    assert forall x <- Ready(crds, Elements(order)) :: x in [];
  }

  /** The loop ends with a startup order or with a stuck rest. */
  lemma LoopEnd(crds: Crds, order: seq<string>, inDegree: map<string, nat>)
    requires Closed(crds) && Progress(crds, order, [], inDegree)
    ensures |order| == |crds.Keys| ==> IsStartupOrder(crds, order)
    ensures |order| != |crds.Keys| ==> !Acyclic(crds)
  {
    hide Ready, Acyclic, Stuck, Closed, Progress, GreedyPrefix, Enumerates, NoDuplicates, Elements;
    ProgressParts(crds, order, inDegree);
    FullWhenAsMany(order, crds.Keys);
    if |order| != |crds.Keys| {
      NothingReadyMeansStuck(crds, Elements(order));
      StuckMeansCyclic(crds, crds.Keys - Elements(order));
    }
  }

  lemma ProgressStep(crds: Crds, g: Graph, order: seq<string>, queue: seq<string>, inDegree: map<string, nat>,
      neighbors: seq<string>)
    requires GraphOf(crds, g) && Progress(crds, order, queue, inDegree) && queue != []
    requires neighbors == Sort(if queue[0] in g.edges then g.edges[queue[0]] else [])
    ensures DegreesAre(crds, Elements(order), inDegree) && queue[0] !in Elements(order)
    ensures NoDuplicates(neighbors) && forall n :: n in neighbors <==> n in crds && queue[0] in crds[n].dependsOn
    ensures NoDuplicates(queue[1..]) && forall n <- neighbors :: n !in queue[1..]
    ensures forall inDegree', queue' |
              DegreesAre(crds, Elements(order) + {queue[0]}, inDegree') &&
              MidQueue(crds, Elements(order), queue[0], neighbors, queue[1..], queue') ::
              Progress(crds, order + [queue[0]], Sort(queue'), inDegree')
    ensures |order| < |crds.Keys|
  {
    hide Missing, Ready, GraphOf, MidQueue, DegreesAre, Enumerates, GreedyPrefix, Sorted;
    GreedyStep(crds, order, queue);
    NeighborsReady(crds, g, order, queue, neighbors);
    assert |order| < |crds.Keys| by { DistinctFits(order + [queue[0]], crds.Keys); }
    forall inDegree', queue' |
      DegreesAre(crds, Elements(order) + {queue[0]}, inDegree') &&
      MidQueue(crds, Elements(order), queue[0], neighbors, queue[1..], queue')
      ensures Progress(crds, order + [queue[0]], Sort(queue'), inDegree')
    {
      QueueReady(crds, order, queue[0], neighbors, queue[1..], queue');
    }
  }

  lemma DistinctFits(order: seq<string>, names: set<string>)
    requires NoDuplicates(order) && Elements(order) <= names
    ensures |order| <= |names|
  {
    assert Enumerates(order, Elements(order));
    EnumerationIsTheSet(order, Elements(order));
    assert |names - Elements(order)| == |names| - |Elements(order)|;
  }

  lemma FirstDegrees(crds: Crds, g: Graph)
    requires GraphOf(crds, g)
    ensures DegreesAre(crds, {}, g.inDegree) && g.inDegree.Keys == crds.Keys
  {
    hide OutDegree, NoDuplicates;
    forall n | n in crds ensures Missing(crds, {}, n) == crds[n].dependsOn.Keys {
    }
  }

  /** None: the process exits with "circular dependency detected". */
  method StartupOrder(ghost crds: Crds, g: Graph) returns (result: Option<seq<string>>)
    requires GraphOf(crds, g) && Closed(crds)
    ensures result.Some? ==> IsStartupOrder(crds, result.value)
    ensures result.Some? <==> Acyclic(crds)
  {
    hide *;
    var inDegree := g.inDegree;
    FirstDegrees(crds, g);
    var queue := FirstQueue(crds, inDegree);
    var order: seq<string> := [];
    ProgressStart(crds, g, queue);
    while |queue| > 0
      invariant Progress(crds, order, queue, inDegree)
      decreases |crds.Keys| - |order|
    {
      var current := queue[0];
      var neighbors := Sort(if current in g.edges then g.edges[current] else []);
      ProgressStep(crds, g, order, queue, inDegree, neighbors);
      inDegree, queue := Update(crds, Elements(order), current, neighbors, inDegree, queue[1..]);
      queue := Sort(queue);
      order := order + [current];
    }
    assert queue == [];
    LoopEnd(crds, order, inDegree);
    if |order| != |g.inDegree.Keys| {
      return None;
    }
    StartupOrderMeansAcyclic(crds, order);
    result := Some(order);
  }
}
