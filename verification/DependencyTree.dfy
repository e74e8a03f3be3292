/** The tree view of the dependency graph (cmd/cli/helper.go): a depth-first walk with a set of
    names already expanded, over any graph, cyclic ones included. */
module DependencyTree {
  import opened Sorting
  import opened StringOrder
  import opened DependencyGraph
  import opened StartupOrder

  datatype Line = Line(indent: string, connector: string, name: string, gvk: string)

  /** The lines printed, the names expanded so far, and the names expanded now, in order. */
  datatype Walk = Walk(lines: seq<Line>, printed: set<string>, expanded: seq<string>)

  type Edges = map<string, seq<string>>

  /** What GetDependents returns, sorted. The order it comes in does not matter. */
  ghost function Kids(edges: Edges, name: string): seq<string> {
    Sort(Listing(Dependents(edges, name)))
  }

  lemma KidsAreDependents(edges: Edges, name: string)
    ensures Sorted(Kids(edges, name)) && Enumerates(Kids(edges, name), Dependents(edges, name))
  {
    SortKeepsEnumeration(Listing(Dependents(edges, name)), Dependents(edges, name));
  }

  function Gvk(crd: Crd): string { crd.group + "/" + crd.version }

  function Connector(crds: Crds, name: string, kid: string, last: bool): string {
    (if last then "└── " else "├── ") +
    if kid in crds && name in crds[kid].dependsOn && crds[kid].dependsOn[name] !in {"", "started"} then
      "(" + crds[kid].dependsOn[name] + ") "
    else ""
  }

  function Deeper(indent: string, last: bool): string { indent + if last then "    " else "│   " }

  /** What printing one node comes to. */
  ghost function Visit(crds: Crds, edges: Edges, name: string, indent: string, connector: string,
      printed: set<string>): (w: Walk)
    ensures printed <= w.printed
    decreases crds.Keys - printed, 0
  {
    if name !in crds then Walk([], printed, [])
    else
      var line := Line(indent, connector, name, Gvk(crds[name]));
      if name in printed then Walk([line], printed, [])
      else
        var below := VisitKids(crds, edges, name, Kids(edges, name), 0, indent, printed + {name});
        Walk([line] + below.lines, below.printed, [name] + below.expanded)
  }

  ghost function VisitKids(crds: Crds, edges: Edges, name: string, kids: seq<string>, i: nat, indent: string,
      printed: set<string>): (w: Walk)
    requires i <= |kids|
    ensures printed <= w.printed
    decreases crds.Keys - printed, |kids| - i + 1
  {
    if i == |kids| then Walk([], printed, [])
    else
      var last := i == |kids| - 1;
      var first := Visit(crds, edges, kids[i], Deeper(indent, last), Connector(crds, name, kids[i], last), printed);
      var rest := VisitKids(crds, edges, name, kids, i + 1, indent, first.printed);
      Walk(first.lines + rest.lines, rest.printed, first.expanded + rest.expanded)
  }

  /** How a child's line begins: a corner for the last one, a tee for the others, and the condition on
      its parent unless that is just to be started. */
  lemma ConnectorIs(crds: Crds, name: string, kid: string, last: bool)
    ensures last ==> Connector(crds, name, kid, last)[..4] == "└── "
    ensures !last ==> Connector(crds, name, kid, last)[..4] == "├── "
    ensures |Connector(crds, name, kid, last)| >= 4
    ensures Connector(crds, name, kid, last)[4..]
         == if kid !in crds || name !in crds[kid].dependsOn || crds[kid].dependsOn[name] == ""
               || crds[kid].dependsOn[name] == "started"
            then "" else "(" + crds[kid].dependsOn[name] + ") "
  {
  }

  /** The line of a declared CRD: its name, group and version; an undeclared one has none. */
  lemma FirstLine(crds: Crds, edges: Edges, name: string, indent: string, connector: string, printed: set<string>)
    ensures name !in crds ==> Visit(crds, edges, name, indent, connector, printed).lines == []
    ensures name in crds ==>
              && Visit(crds, edges, name, indent, connector, printed).lines != []
              && Visit(crds, edges, name, indent, connector, printed).lines[0]
                 == Line(indent, connector, name, crds[name].group + "/" + crds[name].version)
    ensures name in crds && name in printed ==>
              |Visit(crds, edges, name, indent, connector, printed).lines| == 1
  {
    VisitCases(crds, edges, name, indent, connector, printed);
    hide Visit, VisitKids, Kids;
  }

  /** Below a CRD that is expanded come, in ascending order of their names, the lines of its declared
      children, each drawn one level deeper. */
  lemma {:induction false} ChildLine(crds: Crds, edges: Edges, name: string, kids: seq<string>, i: nat, indent: string,
                                     printed: set<string>, j: nat)
    requires i <= j < |kids| && kids[j] in crds
    ensures var deeper := indent + if j == |kids| - 1 then "    " else "│   ";
            Line(deeper, Connector(crds, name, kids[j], j == |kids| - 1), kids[j],
                 crds[kids[j]].group + "/" + crds[kids[j]].version)
            in VisitKids(crds, edges, name, kids, i, indent, printed).lines
    decreases j - i
  {
    var last := i == |kids| - 1;
    var first := Visit(crds, edges, kids[i], Deeper(indent, last), Connector(crds, name, kids[i], last), printed);
    VisitKidsStep(crds, edges, name, kids, i, indent, printed);
    FirstLine(crds, edges, kids[i], Deeper(indent, last), Connector(crds, name, kids[i], last), printed);
    hide Visit, VisitKids, Connector;
    if j == i {
      assert first.lines[0] in first.lines;
    } else {
      ChildLine(crds, edges, name, kids, i + 1, indent, first.printed, j);
    }
  }

  lemma VisitCases(crds: Crds, edges: Edges, name: string, indent: string, connector: string, printed: set<string>)
    ensures var w := Visit(crds, edges, name, indent, connector, printed);
            if name !in crds then w.lines == [] && w.printed == printed
            else
              var line := Line(indent, connector, name, Gvk(crds[name]));
              if name in printed then w.lines == [line] && w.printed == printed
              else
                var below := VisitKids(crds, edges, name, Kids(edges, name), 0, indent, printed + {name});
                w.lines == [line] + below.lines && w.printed == below.printed
  {
    hide VisitKids, Kids, Gvk;
  }

  lemma VisitKidsEnd(crds: Crds, edges: Edges, name: string, kids: seq<string>, indent: string, printed: set<string>)
    ensures VisitKids(crds, edges, name, kids, |kids|, indent, printed) == Walk([], printed, [])
  {
  }

  lemma VisitKidsStep(crds: Crds, edges: Edges, name: string, kids: seq<string>, i: nat, indent: string,
      printed: set<string>)
    requires i < |kids|
    ensures var last := i == |kids| - 1;
            var connector := Connector(crds, name, kids[i], last);
            var first := Visit(crds, edges, kids[i], Deeper(indent, last), connector, printed);
            var rest := VisitKids(crds, edges, name, kids, i + 1, indent, first.printed);
            && VisitKids(crds, edges, name, kids, i, indent, printed).lines == first.lines + rest.lines
            && VisitKids(crds, edges, name, kids, i, indent, printed).printed == rest.printed
  {
    hide Visit, Deeper, Connector;
  }

  lemma VisitRootsStep(crds: Crds, edges: Edges, roots: seq<string>, i: nat, printed: set<string>)
    requires i < |roots|
    ensures var first := Visit(crds, edges, roots[i], "    ", "", printed);
            var rest := VisitRoots(crds, edges, roots[i + 1..], first.printed);
            && VisitRoots(crds, edges, roots[i..], printed).lines == first.lines + rest.lines
            && VisitRoots(crds, edges, roots[i..], printed).printed == rest.printed
  {
    hide Visit;
    assert roots[i..][1..] == roots[i + 1..];
  }

  lemma VisitNoRoots(crds: Crds, edges: Edges, printed: set<string>)
    ensures VisitRoots(crds, edges, [], printed) == Walk([], printed, [])
  {
  }

  /** One root after the other, sharing the set of expanded names. */
  ghost function VisitRoots(crds: Crds, edges: Edges, roots: seq<string>, printed: set<string>): Walk {
    if roots == [] then Walk([], printed, [])
    else
      var first := Visit(crds, edges, roots[0], "    ", "", printed);
      var rest := VisitRoots(crds, edges, roots[1..], first.printed);
      Walk(first.lines + rest.lines, rest.printed, first.expanded + rest.expanded)
  }

  // ----- What the walk reaches -----

  /** An edge of the tree view between declared CRDs. */
  ghost predicate Edge(crds: Crds, edges: Edges, a: string, b: string) {
    a in crds && b in crds && b in Dependents(edges, a)
  }

  ghost predicate Path(crds: Crds, edges: Edges, p: seq<string>) {
    && |p| > 0 && p[0] in crds
    && forall i :: 0 < i < |p| ==> Edge(crds, edges, p[i - 1], p[i])
  }

  ghost predicate Reaches(crds: Crds, edges: Edges, a: string, b: string) {
    exists p: seq<string> :: Path(crds, edges, p) && p[0] == a && p[|p| - 1] == b
  }

  ghost predicate ReachedFrom(crds: Crds, edges: Edges, sources: set<string>, b: string) {
    exists a :: a in sources && Reaches(crds, edges, a, b)
  }

  lemma ReachesItself(crds: Crds, edges: Edges, a: string)
    requires a in crds
    ensures Reaches(crds, edges, a, a)
  {
    assert Path(crds, edges, [a]) && [a][0] == a && [a][|[a]| - 1] == a;
  }

  lemma ReachesByEdge(crds: Crds, edges: Edges, a: string, b: string, c: string)
    requires Edge(crds, edges, a, b) && Reaches(crds, edges, b, c)
    ensures Reaches(crds, edges, a, c)
  {
    var p: seq<string> :| Path(crds, edges, p) && p[0] == b && p[|p| - 1] == c;
    var q := [a] + p;
    forall i | 0 < i < |q| ensures Edge(crds, edges, q[i - 1], q[i]) {
      if i > 1 { assert Edge(crds, edges, p[i - 2], p[i - 1]); }
    }
    assert Path(crds, edges, q) && q[0] == a && q[|q| - 1] == c;
  }

  function New(w: Walk, printed: set<string>): set<string> { w.printed - printed }

  /** A walk from `sources` expands each new name once, all of them declared and reached from the
      sources, and leaves no edge from a new name to a name that is not expanded. */
  ghost predicate Covers(crds: Crds, edges: Edges, sources: set<string>, printed: set<string>, w: Walk) {
    && printed <= w.printed <= crds.Keys
    && Enumerates(w.expanded, New(w, printed))
    && sources * crds.Keys <= w.printed
    && (forall v <- New(w, printed) :: ReachedFrom(crds, edges, sources, v))
    && (forall a, b | a in New(w, printed) && Edge(crds, edges, a, b) :: b in w.printed)
  }

  /** How many lines the edges out of the expanded names take: one for each declared target. */
  function Declared(crds: Crds, names: seq<string>): nat {
    if names == [] then 0 else (if names[0] in crds then 1 else 0) + Declared(crds, names[1..])
  }

  ghost function OutEdges(crds: Crds, edges: Edges, expanded: seq<string>): nat {
    if expanded == [] then 0 else Declared(crds, Kids(edges, expanded[0])) + OutEdges(crds, edges, expanded[1..])
  }

  lemma {:induction false} OutEdgesAdd(crds: Crds, edges: Edges, a: seq<string>, b: seq<string>)
    ensures OutEdges(crds, edges, a + b) == OutEdges(crds, edges, a) + OutEdges(crds, edges, b)
  {
    if a == [] {
      assert a + b == b;
    } else {
      assert (a + b)[1..] == a[1..] + b;
      OutEdgesAdd(crds, edges, a[1..], b);
    }
  }

  function Join(first: Walk, rest: Walk): Walk {
    Walk(first.lines + rest.lines, rest.printed, first.expanded + rest.expanded)
  }

  lemma EnumerationsJoin(a: seq<string>, x: set<string>, b: seq<string>, y: set<string>)
    requires Enumerates(a, x) && Enumerates(b, y) && x !! y
    ensures Enumerates(a + b, x + y)
  {
    forall i, j | 0 <= i < j < |a + b| ensures (a + b)[i] != (a + b)[j] {
      assert i < |a| ==> (a + b)[i] in a;
      assert j >= |a| ==> (a + b)[j] in b;
    }
  }

  lemma CoversJoin(crds: Crds, edges: Edges, s: set<string>, t: set<string>, printed: set<string>, first: Walk,
      rest: Walk)
    requires Covers(crds, edges, s, printed, first) && Covers(crds, edges, t, first.printed, rest)
    ensures Covers(crds, edges, s + t, printed, Join(first, rest))
  {
    var w := Join(first, rest);
    assert New(w, printed) == New(first, printed) + New(rest, first.printed);
    EnumerationsJoin(first.expanded, New(first, printed), rest.expanded, New(rest, first.printed));
    hide Edge, Reaches;
    forall v | v in New(w, printed) ensures ReachedFrom(crds, edges, s + t, v) {
      if v in New(first, printed) {
        var a :| a in s && Reaches(crds, edges, a, v);
        assert a in s + t;
      } else {
        var a :| a in t && Reaches(crds, edges, a, v);
        assert a in s + t;
      }
    }
  }

  lemma CoversNothing(crds: Crds, edges: Edges, printed: set<string>)
    requires printed <= crds.Keys
    ensures Covers(crds, edges, {}, printed, Walk([], printed, [])) && OutEdges(crds, edges, []) == 0
  {
  }

  /** Expanding a node on top of the walk over its children. */
  lemma CoversNode(crds: Crds, edges: Edges, name: string, printed: set<string>, line: Line, below: Walk)
    requires name in crds && name !in printed && printed <= crds.Keys
    requires Covers(crds, edges, Dependents(edges, name), printed + {name}, below)
    ensures Covers(crds, edges, {name}, printed, Walk([line] + below.lines, below.printed, [name] + below.expanded))
  {
    var w := Walk([line] + below.lines, below.printed, [name] + below.expanded);
    assert New(w, printed) == {name} + New(below, printed + {name});
    EnumerationsJoin([name], {name}, below.expanded, New(below, printed + {name}));
    forall v | v in New(w, printed) ensures ReachedFrom(crds, edges, {name}, v) {
      if v == name {
        ReachesItself(crds, edges, name);
      } else {
        var a :| a in Dependents(edges, name) && Reaches(crds, edges, a, v);
        assert Edge(crds, edges, name, a);
        ReachesByEdge(crds, edges, name, a, v);
      }
      assert Reaches(crds, edges, name, v);
    }
  }

  /** The walk from one node, whatever has been expanded before it. */
  lemma {:induction false} VisitCovers(crds: Crds, edges: Edges, name: string, indent: string, connector: string,
      printed: set<string>)
    requires printed <= crds.Keys
    ensures Covers(crds, edges, {name}, printed, Visit(crds, edges, name, indent, connector, printed))
    ensures |Visit(crds, edges, name, indent, connector, printed).lines|
         == Declared(crds, [name])
             + OutEdges(crds, edges, Visit(crds, edges, name, indent, connector, printed).expanded)
    decreases crds.Keys - printed, 0
  {
    if name in crds && name !in printed {
      var kids := Kids(edges, name);
      KidsAreDependents(edges, name);
      VisitKidsCovers(crds, edges, name, kids, 0, indent, printed + {name});
      var below := VisitKids(crds, edges, name, kids, 0, indent, printed + {name});
      assert kids[0..] == kids;
      assert Elements(kids) == Dependents(edges, name);
      CoversNode(crds, edges, name, printed, Line(indent, connector, name, Gvk(crds[name])), below);
      OutEdgesAdd(crds, edges, [name], below.expanded);
    }
  }

  lemma {:induction false} VisitKidsCovers(crds: Crds, edges: Edges, name: string, kids: seq<string>, i: nat,
      indent: string, printed: set<string>)
    requires i <= |kids| && printed <= crds.Keys
    ensures Covers(crds, edges, Elements(kids[i..]), printed, VisitKids(crds, edges, name, kids, i, indent, printed))
    ensures |VisitKids(crds, edges, name, kids, i, indent, printed).lines|
         == Declared(crds, kids[i..])
             + OutEdges(crds, edges, VisitKids(crds, edges, name, kids, i, indent, printed).expanded)
    decreases crds.Keys - printed, |kids| - i + 1
  {
    hide Covers, Connector, Deeper, OutEdges;
    if i == |kids| {
      CoversNothing(crds, edges, printed);
      assert Elements(kids[i..]) == {};
    } else {
      var last := i == |kids| - 1;
      var below, connector := Deeper(indent, last), Connector(crds, name, kids[i], last);
      VisitCovers(crds, edges, kids[i], below, connector, printed);
      var first := Visit(crds, edges, kids[i], below, connector, printed);
      VisitKidsCovers(crds, edges, name, kids, i + 1, indent, first.printed);
      var rest := VisitKids(crds, edges, name, kids, i + 1, indent, first.printed);
      var t := Elements(kids[i + 1..]);
      CoversJoin(crds, edges, {kids[i]}, t, printed, first, rest);
      assert kids[i..] == [kids[i]] + kids[i + 1..];
      assert Elements(kids[i..]) == {kids[i]} + t;
      OutEdgesAdd(crds, edges, first.expanded, rest.expanded);
    }
  }

  lemma {:induction false} VisitRootsCovers(crds: Crds, edges: Edges, roots: seq<string>, printed: set<string>)
    requires printed <= crds.Keys
    ensures Covers(crds, edges, Elements(roots), printed, VisitRoots(crds, edges, roots, printed))
    ensures |VisitRoots(crds, edges, roots, printed).lines|
         == Declared(crds, roots) + OutEdges(crds, edges, VisitRoots(crds, edges, roots, printed).expanded)
  {
    if roots == [] {
      CoversNothing(crds, edges, printed);
      assert Elements(roots) == {};
    } else {
      VisitCovers(crds, edges, roots[0], "    ", "", printed);
      var first := Visit(crds, edges, roots[0], "    ", "", printed);
      assert first.printed <= crds.Keys;
      hide Covers;
      VisitRootsCovers(crds, edges, roots[1..], first.printed);
      var rest := VisitRoots(crds, edges, roots[1..], first.printed);
      CoversJoin(crds, edges, {roots[0]}, Elements(roots[1..]), printed, first, rest);
      assert roots == [roots[0]] + roots[1..];
      assert Elements(roots) == {roots[0]} + Elements(roots[1..]);
      OutEdgesAdd(crds, edges, first.expanded, rest.expanded);
    }
  }

  lemma {:induction false} PathStaysPrinted(crds: Crds, edges: Edges, printed: set<string>, p: seq<string>, i: nat)
    requires Path(crds, edges, p) && i < |p| && p[0] in printed
    requires forall a, b | a in printed && Edge(crds, edges, a, b) :: b in printed
    ensures p[i] in printed
  {
    if i > 0 {
      PathStaysPrinted(crds, edges, printed, p, i - 1);
      assert Edge(crds, edges, p[i - 1], p[i]);
    }
  }

  /** After all roots, for any graph: the names expanded are exactly the declared CRDs reached from
      the roots, each expanded once, and every line is a root or an edge out of an expanded name. */
  lemma TreeShowsWhatIsReached(crds: Crds, edges: Edges, roots: seq<string>)
    ensures forall v ::
              v in VisitRoots(crds, edges, roots, {}).printed <==> ReachedFrom(crds, edges, Elements(roots), v)
    ensures Enumerates(VisitRoots(crds, edges, roots, {}).expanded, VisitRoots(crds, edges, roots, {}).printed)
    ensures |VisitRoots(crds, edges, roots, {}).lines|
         == Declared(crds, roots) + OutEdges(crds, edges, VisitRoots(crds, edges, roots, {}).expanded)
  {
    VisitRootsCovers(crds, edges, roots, {});
    var w := VisitRoots(crds, edges, roots, {});
    assert New(w, {}) == w.printed;
    forall v | ReachedFrom(crds, edges, Elements(roots), v) ensures v in w.printed {
      var a :| a in Elements(roots) && Reaches(crds, edges, a, v);
      var p: seq<string> :| Path(crds, edges, p) && p[0] == a && p[|p| - 1] == v;
      PathStaysPrinted(crds, edges, w.printed, p, |p| - 1);
    }
  }

  // ----- The roots, and what the view shows in the end -----

  function Roots(crds: Crds, order: seq<string>): seq<string> {
    if order == [] then []
    else (if order[0] in crds && crds[order[0]].dependsOn == map[] then [order[0]] else []) + Roots(crds, order[1..])
  }

  /** The CRDs without dependencies, in the order given. */
  lemma {:induction false} RootsKeepOrder(crds: Crds, a: seq<string>, b: seq<string>)
    ensures Roots(crds, a + b) == Roots(crds, a) + Roots(crds, b)
  {
    if a == [] {
      assert a + b == b;
    } else {
      RootsKeepOrder(crds, a[1..], b);
      assert (a + b)[1..] == a[1..] + b && (a + b)[0] == a[0];
    }
  }

  lemma OneRoot(crds: Crds, n: string)
    ensures Roots(crds, [n]) == if n in crds && |crds[n].dependsOn| == 0 then [n] else []
  {
    assert [n][1..] == [];
  }

  lemma {:induction false} RootsAre(crds: Crds, order: seq<string>)
    ensures forall n :: n in Roots(crds, order) <==> n in order && n in crds && crds[n].dependsOn == map[]
    ensures Declared(crds, Roots(crds, order)) == |Roots(crds, order)|
  {
    if order != [] {
      RootsAre(crds, order[1..]);
      assert order == [order[0]] + order[1..];
      var rest := Roots(crds, order[1..]);
      assert ([order[0]] + rest)[1..] == rest && [] + rest == rest;
    }
  }

  /** If the edges led from a CRD to the CRDs that depend on it, the view would show every CRD. */
  lemma TrueDependentsShowEverything(crds: Crds, edges: Edges, order: seq<string>)
    requires IsStartupOrder(crds, order)
    requires forall n <- crds :: Dependents(edges, n) == set m | m in crds && n in crds[m].dependsOn
    ensures VisitRoots(crds, edges, Roots(crds, order), {}).printed == crds.Keys
  {
    var w := VisitRoots(crds, edges, Roots(crds, order), {});
    VisitRootsCovers(crds, edges, Roots(crds, order), {});
    RootsAre(crds, order);
    hide Enumerates, GreedyPrefix;
    forall n | n in crds ensures n in w.printed {
      assert n in order by { OrderParts(crds, order); EnumerationParts(order, crds.Keys); }
      var i :| 0 <= i < |order| && order[i] == n;
      PositionIsShown(crds, edges, order, w.printed, i);
    }
  }

  lemma {:induction false} PositionIsShown(crds: Crds, edges: Edges, order: seq<string>, printed: set<string>, i: nat)
    requires IsStartupOrder(crds, order) && i < |order|
    requires forall n <- crds :: Dependents(edges, n) == set m | m in crds && n in crds[m].dependsOn
    requires forall n | n in order && n in crds && crds[n].dependsOn == map[] :: n in printed
    requires forall a, b | a in printed && Edge(crds, edges, a, b) :: b in printed
    ensures order[i] in printed
  {
    OrderParts(crds, order);
    var n := order[i];
    assert n in order;
    if crds[n].dependsOn != map[] {
      var d :| d in crds[n].dependsOn;
      DependenciesStartFirst(crds, order, i, d);
      var j :| 0 <= j < i && order[..i][j] == d;
      assert d == order[j] && d in order;
      PositionIsShown(crds, edges, order, printed, j);
      assert Edge(crds, edges, d, n);
    }
  }

  /** With the graph the program builds, the edges lead to the dependencies instead, and a root has
      none: the view is one line for each CRD without dependencies. */
  lemma ViewIsTheRoots(crds: Crds, g: Graph, order: seq<string>)
    requires GraphOf(crds, g)
    ensures var roots := Roots(crds, order);
            && VisitRoots(crds, g.edges, roots, {}).printed == Elements(roots)
            && |VisitRoots(crds, g.edges, roots, {}).lines| == |roots|
            && forall i | 0 <= i < |roots| ::
                 roots[i] in crds && VisitRoots(crds, g.edges, roots, {}).lines[i]
                                     == Line("    ", "", roots[i], crds[roots[i]].group + "/" + crds[roots[i]].version)
  {
    hide *;
    ViewHasOneLineEach(crds, g, order);
    RootsAre(crds, order);
    RootLines(crds, g, Roots(crds, order), {});
  }

  lemma {:induction false} RootLines(crds: Crds, g: Graph, roots: seq<string>, printed: set<string>)
    requires GraphOf(crds, g) && forall r <- roots :: r in crds && crds[r].dependsOn == map[]
    ensures |VisitRoots(crds, g.edges, roots, printed).lines| == |roots|
    ensures forall i | 0 <= i < |roots| ::
              VisitRoots(crds, g.edges, roots, printed).lines[i]
              == Line("    ", "", roots[i], crds[roots[i]].group + "/" + crds[roots[i]].version)
  {
    if roots != [] {
      var first := Visit(crds, g.edges, roots[0], "    ", "", printed);
      RootLine(crds, g, roots[0], printed);
      RootLines(crds, g, roots[1..], first.printed);
      hide Visit, GraphOf;
    }
  }

  lemma RootLine(crds: Crds, g: Graph, r: string, printed: set<string>)
    requires GraphOf(crds, g) && r in crds && crds[r].dependsOn == map[]
    ensures Visit(crds, g.edges, r, "    ", "", printed).lines
         == [Line("    ", "", r, crds[r].group + "/" + crds[r].version)]
  {
    DependentsAreDependencies(crds, g, r);
    KidsAreDependents(g.edges, r);
    EnumerationIsTheSet(Kids(g.edges, r), {});
    VisitCases(crds, g.edges, r, "    ", "", printed);
    VisitKidsEnd(crds, g.edges, r, Kids(g.edges, r), "    ", printed + {r});
  }

  lemma ViewHasOneLineEach(crds: Crds, g: Graph, order: seq<string>)
    requires GraphOf(crds, g)
    ensures var roots := Roots(crds, order);
            && VisitRoots(crds, g.edges, roots, {}).printed == Elements(roots)
            && |VisitRoots(crds, g.edges, roots, {}).lines| == |roots|
  {
    var roots := Roots(crds, order);
    RootsAre(crds, order);
    VisitRootsCovers(crds, g.edges, roots, {});
    var w := VisitRoots(crds, g.edges, roots, {});
    forall v | v in w.printed ensures v in Elements(roots) {
      assert v in New(w, {});
      var a :| a in Elements(roots) && Reaches(crds, g.edges, a, v);
      var p: seq<string> :| Path(crds, g.edges, p) && p[0] == a && p[|p| - 1] == v;
      DependentsAreDependencies(crds, g, a);
      assert |p| == 1 || Edge(crds, g.edges, p[0], p[1]);
    }
    assert w.printed == Elements(roots);
    forall v | v in w.expanded ensures Kids(g.edges, v) == [] {
      assert v in New(w, {}) && v in roots;
      DependentsAreDependencies(crds, g, v);
      KidsAreDependents(g.edges, v);
      EnumerationIsTheSet(Kids(g.edges, v), {});
    }
    NoOutEdges(crds, g.edges, w.expanded);
  }

  lemma {:induction false} NoOutEdges(crds: Crds, edges: Edges, expanded: seq<string>)
    requires forall v <- expanded :: Kids(edges, v) == []
    ensures OutEdges(crds, edges, expanded) == 0
  {
    if expanded != [] { NoOutEdges(crds, edges, expanded[1..]); }
  }

  /** So the view shows every CRD exactly when no CRD depends on another. */
  lemma ViewShowsEverythingIff(crds: Crds, g: Graph, order: seq<string>)
    requires GraphOf(crds, g) && IsStartupOrder(crds, order)
    ensures VisitRoots(crds, g.edges, Roots(crds, order), {}).printed == crds.Keys
       <==> forall n <- crds :: crds[n].dependsOn == map[]
  {
    hide *;
    ViewIsTheRoots(crds, g, order);
    AllAreRootsIff(crds, order);
  }

  lemma AllAreRootsIff(crds: Crds, order: seq<string>)
    requires IsStartupOrder(crds, order)
    ensures Elements(Roots(crds, order)) == crds.Keys <==> forall n <- crds :: crds[n].dependsOn == map[]
  {
    hide *;
    var roots := Roots(crds, order);
    RootsAre(crds, order);
    OrderParts(crds, order);
    EnumerationParts(order, crds.Keys);
    ElementsAre(roots);
    assert forall n :: n in Elements(roots) <==> n in crds && crds[n].dependsOn == map[];
  }

  lemma ElementsAre(s: seq<string>)
    ensures forall x :: x in Elements(s) <==> x in s
  {
  }

  // ----- Printing it -----

  /** The state of one printDependencyGraph call: what has been printed and expanded. */
  class TreePrinter {
    var lines: seq<Line>
    var printed: set<string>

    constructor ()
      ensures lines == [] && printed == {}
    {
      lines, printed := [], {};
    }

    method PrintGraphNode(crds: Crds, g: Graph, name: string, indent: string, connector: string)
      requires forall d <- g.edges :: NoDuplicates(g.edges[d])
      modifies this
      ensures lines == old(lines) + Visit(crds, g.edges, name, indent, connector, old(printed)).lines
      ensures printed == Visit(crds, g.edges, name, indent, connector, old(printed)).printed
      decreases crds.Keys - printed
    {
      hide *;
      VisitCases(crds, g.edges, name, indent, connector, printed);
      if name !in crds {
        return;
      }
      lines := lines + [Line(indent, connector, name, Gvk(crds[name]))];
      if name in printed {
        return;
      }
      printed := printed + {name};
      var dependents := GetDependents(g, name);
      dependents := SortedDependents(g, name, dependents);
      ghost var lines0, printed0 := lines, printed;
      ghost var below := VisitKids(crds, g.edges, name, dependents, 0, indent, printed0);
      for i := 0 to |dependents|
        invariant printed0 <= printed
        invariant lines + VisitKids(crds, g.edges, name, dependents, i, indent, printed).lines == lines0 + below.lines
        invariant VisitKids(crds, g.edges, name, dependents, i, indent, printed).printed == below.printed
      {
        VisitKidsStep(crds, g.edges, name, dependents, i, indent, printed);
        var last := i == |dependents| - 1;
        PrintGraphNode(crds, g, dependents[i], Deeper(indent, last), Connector(crds, name, dependents[i], last));
      }
      VisitKidsEnd(crds, g.edges, name, dependents, indent, printed);
      assert lines + [] == lines == lines0 + below.lines;
    }

    method SortedDependents(g: Graph, name: string, dependents: seq<string>) returns (sorted: seq<string>)
      requires Enumerates(dependents, Dependents(g.edges, name))
      ensures sorted == Kids(g.edges, name)
    {
      sorted := Sort(dependents);
      SortedEnumeration(dependents, Listing(Dependents(g.edges, name)), Dependents(g.edges, name));
    }

    /** The tree view: the CRDs without dependencies in startup order, each with what is below it. */
    method PrintDependencyTree(crds: Crds, g: Graph, startupOrder: seq<string>)
      requires forall d <- g.edges :: NoDuplicates(g.edges[d])
      requires lines == [] && printed == {}
      modifies this
      ensures lines == VisitRoots(crds, g.edges, Roots(crds, startupOrder), {}).lines
      ensures printed == VisitRoots(crds, g.edges, Roots(crds, startupOrder), {}).printed
    {
      hide *;
      var roots := CollectRoots(crds, startupOrder);
      ghost var all := VisitRoots(crds, g.edges, roots, {});
      assert roots[0..] == roots;
      for i := 0 to |roots|
        invariant lines + VisitRoots(crds, g.edges, roots[i..], printed).lines == all.lines
        invariant VisitRoots(crds, g.edges, roots[i..], printed).printed == all.printed
      {
        VisitRootsStep(crds, g.edges, roots, i, printed);
        PrintGraphNode(crds, g, roots[i], "    ", "");
      }
      VisitNoRoots(crds, g.edges, printed);
      assert roots[|roots|..] == [] && lines + [] == lines;
    }

    static method CollectRoots(crds: Crds, startupOrder: seq<string>) returns (roots: seq<string>)
      ensures roots == Roots(crds, startupOrder)
    {
      roots := [];
      for i := 0 to |startupOrder|
        invariant roots == Roots(crds, startupOrder[..i])
      {
        var name := startupOrder[i];
        RootsOneMore(crds, startupOrder[..i], name);
        assert startupOrder[..i + 1] == startupOrder[..i] + [name];
        hide Roots;
        if name in crds && |crds[name].dependsOn| == 0 {
          roots := roots + [name];
        }
      }
      assert startupOrder[..|startupOrder|] == startupOrder;
    }
  }

  lemma {:induction false} RootsOneMore(crds: Crds, order: seq<string>, name: string)
    ensures Roots(crds, order + [name])
         == if name in crds && crds[name].dependsOn == map[] then Roots(crds, order) + [name] else Roots(crds, order)
  {
    if order == [] {
      assert order + [name] == [name] && [name][1..] == [];
    } else {
      RootsOneMore(crds, order[1..], name);
      assert (order + [name])[1..] == order[1..] + [name];
    }
  }
}
