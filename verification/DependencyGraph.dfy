/** The graph of dependsOn declarations (pkg/katalog/dependencies.go): how it is built, what its
    queries return, and the order Kahn's algorithm starts the CRDs in. */
module DependencyGraph {
  import opened Common
  import opened Sorting

  /** `dependsOn` maps each dependency to its condition. */
  datatype Crd = Crd(group: string, version: string, dependsOn: map<string, string>)

  type Crds = map<string, Crd>

  /** `edges` maps a dependency to the list of CRDs that depend on it. */
  datatype Graph = Graph(edges: map<string, seq<string>>, inDegree: map<string, nat>, outDegree: map<string, nat>)

  predicate Closed(crds: Crds) {
    forall m <- crds :: forall d <- crds[m].dependsOn :: d in crds
  }

  /** The CRDs that depend on one. */
  function DependingOn(crds: Crds, name: string): set<string> {
    set m | m in crds && name in crds[m].dependsOn
  }

  function InDegree(crds: Crds, m: string): nat
    requires m in crds
  {
    |crds[m].dependsOn.Keys|
  }

  function OutDegree(crds: Crds, d: string): nat { |DependingOn(crds, d)| }

  ghost predicate GraphOf(crds: Crds, g: Graph) {
    && (forall d, m :: d in g.edges && m in g.edges[d] <==> m in crds && d in crds[m].dependsOn)
    && (forall d <- g.edges :: NoDuplicates(g.edges[d]))
    && g.inDegree.Keys == crds.Keys
    && (forall m <- crds :: g.inDegree[m] == InDegree(crds, m))
    && g.outDegree.Keys == crds.Keys
    && (forall m <- crds :: g.outDegree[m] == OutDegree(crds, m))
  }

  /** The edges contributed by the CRDs already visited, and by m's dependencies in `seen`. */
  ghost predicate PartialEdges(crds: Crds, edges: map<string, seq<string>>, visited: set<string>, m: string,
      seen: set<string>) {
    && (forall d, n :: d in edges && n in edges[d] <==>
          n in crds && d in crds[n].dependsOn && (n in visited || (n == m && d in seen)))
    && (forall d <- edges :: NoDuplicates(edges[d]))
  }

  function AddEdge(edges: map<string, seq<string>>, d: string, m: string): map<string, seq<string>> {
    edges[d := (if d in edges then edges[d] else []) + [m]]
  }

  function EdgesFrom(edges: map<string, seq<string>>, d: string): seq<string> { if d in edges then edges[d] else [] }

  ghost predicate OutDegrees(crds: Crds, edges: map<string, seq<string>>, outDegree: map<string, nat>) {
    outDegree.Keys == crds.Keys && forall d <- crds :: outDegree[d] == |EdgesFrom(edges, d)|
  }

  lemma OneMoreOut(crds: Crds, edges: map<string, seq<string>>, outDegree: map<string, nat>, d: string, m: string)
    requires OutDegrees(crds, edges, outDegree) && d in crds
    ensures OutDegrees(crds, AddEdge(edges, d, m), outDegree[d := outDegree[d] + 1])
  {
  }

  lemma AddEdgeExtends(crds: Crds, edges: map<string, seq<string>>, visited: set<string>, m: string, seen: set<string>,
      d: string)
    requires PartialEdges(crds, edges, visited, m, seen)
    requires m in crds && m !in visited && d in crds[m].dependsOn && d !in seen
    ensures PartialEdges(crds, AddEdge(edges, d, m), visited, m, seen + {d})
  {
    var after := AddEdge(edges, d, m);
    assert d in edges ==> m !in edges[d];
    forall e, n
      ensures e in after && n in after[e] <==>
              n in crds && e in crds[n].dependsOn && (n in visited || (n == m && e in seen + {d}))
    {
      assert e in edges && n in edges[e]
        <==> n in crds && e in crds[n].dependsOn && (n in visited || (n == m && e in seen));
    }
  }

  lemma NextCrd(crds: Crds, edges: map<string, seq<string>>, visited: set<string>, m: string)
    requires m in crds && PartialEdges(crds, edges, visited, m, crds[m].dependsOn.Keys)
    ensures PartialEdges(crds, edges, visited + {m}, "", {})
  {
  }

  lemma FirstEdge(crds: Crds, edges: map<string, seq<string>>, visited: set<string>, m: string)
    requires PartialEdges(crds, edges, visited, "", {})
    ensures PartialEdges(crds, edges, visited, m, {})
  {
  }

  /** The dependencies of one CRD, in any order: Go ranges over a map. */
  method AddEdgesOf(crds: Crds, m: string, edges0: map<string, seq<string>>, out0: map<string, nat>,
      ghost visited: set<string>)
    returns (edges: map<string, seq<string>>, degree: nat, outDegree: map<string, nat>, missing: Option<string>)
    requires m in crds && m !in visited && PartialEdges(crds, edges0, visited, m, {}) && OutDegrees(crds, edges0, out0)
    ensures missing.None? <==> crds[m].dependsOn.Keys <= crds.Keys
    ensures missing.None? ==> degree == InDegree(crds, m)
    ensures missing.None? ==> PartialEdges(crds, edges, visited, m, crds[m].dependsOn.Keys)
    ensures OutDegrees(crds, edges, outDegree)
  {
    assert out0.Keys == crds.Keys;
    hide PartialEdges, OutDegrees;
    edges, degree, outDegree, missing := edges0, 0, out0, None;
    var deps := crds[m].dependsOn.Keys;
    ghost var seen := {};
    while deps != {}
      invariant seen !! deps && seen + deps == crds[m].dependsOn.Keys && degree == |seen|
      invariant PartialEdges(crds, edges, visited, m, seen)
      invariant OutDegrees(crds, edges, outDegree) && outDegree.Keys == crds.Keys
      invariant forall d <- seen :: d in crds
      decreases deps
    {
      var d :| d in deps;
      if d !in crds {
        missing := Some(d);
        return;
      }
      AddEdgeExtends(crds, edges, visited, m, seen, d);
      OneMoreOut(crds, edges, outDegree, d, m);
      edges, degree, outDegree := AddEdge(edges, d, m), degree + 1, outDegree[d := outDegree[d] + 1];
      seen, deps := seen + {d}, deps - {d};
    }
    assert seen == crds[m].dependsOn.Keys;
  }

  predicate Split(crds: Crds, visited: set<string>, todo: set<string>) {
    visited !! todo && visited + todo == crds.Keys
  }

  /** The CRDs visited have their in-degree, and only declared dependencies. */
  ghost predicate Degrees(crds: Crds, visited: set<string>, inDegree: map<string, nat>) {
    && inDegree.Keys == visited <= crds.Keys
    && (forall m <- visited :: inDegree[m] == InDegree(crds, m) && crds[m].dependsOn.Keys <= crds.Keys)
  }

  lemma NextVisited(crds: Crds, visited: set<string>, todo: set<string>, m: string)
    requires Split(crds, visited, todo) && m in todo
    ensures Split(crds, visited + {m}, todo - {m}) && m in crds && m !in visited && visited <= crds.Keys
  {
    assert (visited + {m}) + (todo - {m}) == visited + todo;
  }

  lemma NextDegree(crds: Crds, visited: set<string>, inDegree: map<string, nat>, m: string, degree: nat)
    requires m in crds && m !in visited && Degrees(crds, visited, inDegree)
    requires degree == InDegree(crds, m) && crds[m].dependsOn.Keys <= crds.Keys
    ensures Degrees(crds, visited + {m}, inDegree[m := degree])
  {
    hide InDegree;
    var after := inDegree[m := degree];
    assert after.Keys == visited + {m};
    forall n | n in visited + {m} ensures after[n] == InDegree(crds, n) && crds[n].dependsOn.Keys <= crds.Keys {
      if n != m { assert n in visited && after[n] == inDegree[n]; }
    }
  }

  /** The process exits when a dependency is not declared. */
  method NewDependencyGraph(crds: Crds) returns (g: Result<Graph>)
    ensures g.Ok? <==> Closed(crds)
    ensures g.Ok? ==> GraphOf(crds, g.value)
  {
    var edges: map<string, seq<string>> := map[];
    var inDegree: map<string, nat> := map[];
    var outDegree: map<string, nat> := map name | name in crds :: 0;
    var todo := crds.Keys;
    ghost var visited := {};
    assert PartialEdges(crds, edges, {}, "", {}) && OutDegrees(crds, edges, outDegree);
    hide PartialEdges, GraphOf, Degrees, OutDegrees, InDegree;
    while todo != {}
      invariant Split(crds, visited, todo)
      invariant PartialEdges(crds, edges, visited, "", {}) && OutDegrees(crds, edges, outDegree)
      invariant Degrees(crds, visited, inDegree)
      decreases todo
    {
      var m :| m in todo;
      var degree, missing;
      NextVisited(crds, visited, todo, m);
      FirstEdge(crds, edges, visited, m);
      edges, degree, outDegree, missing := AddEdgesOf(crds, m, edges, outDegree, visited);
      if missing.Some? {
        assert !Closed(crds);
        return Err(missing.value);
      }
      NextCrd(crds, edges, visited, m);
      NextDegree(crds, visited, inDegree, m, degree);
      inDegree := inDegree[m := degree];
      visited, todo := visited + {m}, todo - {m};
    }
    assert visited == crds.Keys;
    GraphComplete(crds, edges, inDegree, outDegree);
    g := Ok(Graph(edges, inDegree, outDegree));
  }

  lemma GraphComplete(crds: Crds, edges: map<string, seq<string>>, inDegree: map<string, nat>,
      outDegree: map<string, nat>)
    requires PartialEdges(crds, edges, crds.Keys, "", {})
    requires Degrees(crds, crds.Keys, inDegree) && OutDegrees(crds, edges, outDegree)
    ensures GraphOf(crds, Graph(edges, inDegree, outDegree)) && Closed(crds)
  {
    hide InDegree, OutDegree, OutDegrees, NoDuplicates, EdgesFrom;
    forall d | d in crds ensures d in outDegree && outDegree[d] == OutDegree(crds, d) {
      CountedOut(crds, edges, outDegree, d);
    }
    assert crds.Keys <= outDegree.Keys <= crds.Keys by { OutKeys(crds, edges, outDegree); }
  }

  lemma OutKeys(crds: Crds, edges: map<string, seq<string>>, outDegree: map<string, nat>)
    requires OutDegrees(crds, edges, outDegree)
    ensures outDegree.Keys == crds.Keys
  {
  }

  lemma CountedOut(crds: Crds, edges: map<string, seq<string>>, outDegree: map<string, nat>, d: string)
    requires PartialEdges(crds, edges, crds.Keys, "", {}) && OutDegrees(crds, edges, outDegree) && d in crds
    ensures d in outDegree && outDegree[d] == OutDegree(crds, d)
  {
    assert Enumerates(EdgesFrom(edges, d), DependingOn(crds, d));
    hide PartialEdges, Enumerates;
    EnumerationIsTheSet(EdgesFrom(edges, d), DependingOn(crds, d));
  }

  function Dependents(edges: map<string, seq<string>>, name: string): set<string> {
    set d | d in edges && name in edges[d]
  }

  /** GetDependents: every key whose list holds the name, in any order. */
  method GetDependents(g: Graph, name: string) returns (dependents: seq<string>)
    requires forall d <- g.edges :: NoDuplicates(g.edges[d])
    ensures Enumerates(dependents, Dependents(g.edges, name))
  {
    dependents := [];
    var todo := g.edges.Keys;
    while todo != {}
      invariant todo <= g.edges.Keys
      invariant Enumerates(dependents, Dependents(g.edges, name) - todo)
      decreases todo
    {
      var d :| d in todo;
      ghost var before := dependents;
      for i := 0 to |g.edges[d]|
        invariant dependents == if name in g.edges[d][..i] then before + [d] else before
      {
        if g.edges[d][i] == name {
          assert name !in g.edges[d][..i];
          dependents := dependents + [d];
        }
        assert g.edges[d][..i + 1] == g.edges[d][..i] + [g.edges[d][i]];
      }
      assert g.edges[d][..|g.edges[d]|] == g.edges[d];
      todo := todo - {d};
    }
  }

  /** What GetDependents returns for the graph NewDependencyGraph builds are not the dependents of
      a CRD but its dependencies: the edges are keyed by the dependency, and it returns the keys. */
  lemma DependentsAreDependencies(crds: Crds, g: Graph, name: string)
    requires GraphOf(crds, g)
    ensures Dependents(g.edges, name) == if name in crds then crds[name].dependsOn.Keys else {}
  {
    forall d ensures d in Dependents(g.edges, name) <==> name in crds && d in crds[name].dependsOn {
    }
  }

}
