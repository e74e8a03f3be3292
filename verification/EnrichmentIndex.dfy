/** Which spellings name the same enrichment (pkg/children/builtins_accessors.go,
    pkg/children/enrich_helper.go, pkg/children/builtins.go). */
module EnrichmentIndex {
  import opened Sorting
  import opened StringOrder
  import opened Text

  datatype EnrichmentEntry = EnrichmentEntry(target: bool, keys: seq<string>)
  datatype BuiltIn = BuiltIn(plural: string, shorthands: seq<string>)

  type Groups = map<string, seq<string>>

  function LowerAll(s: seq<string>): seq<string> { seq(|s|, i requires 0 <= i < |s| => Lower(s[i])) }

  /** Name, plural, shorthands and synthetic keys of one kind. */
  function Spellings(meta: map<string, EnrichmentEntry>, registry: map<string, BuiltIn>, name: string): seq<string>
    requires name in meta
  {
    [name] +
    (if name in registry then
       (if registry[name].plural != "" then [registry[name].plural] else []) + LowerAll(registry[name].shorthands)
     else []) +
    meta[name].keys
  }

  /** What a group holds, in ascending order: the name, the plural if there is one, the shorthands in
      small letters, and the synthetic keys. */
  lemma GroupHolds(meta: map<string, EnrichmentEntry>, registry: map<string, BuiltIn>, name: string, s: string)
    requires name in meta
    ensures Sorted(Sort(Spellings(meta, registry, name)))
    ensures s in Sort(Spellings(meta, registry, name))
       <==> || s == name
            || (name in registry && |registry[name].plural| > 0 && s == registry[name].plural)
            || (name in registry
                && exists i :: 0 <= i < |registry[name].shorthands| && s == Lower(registry[name].shorthands[i]))
            || s in meta[name].keys
  {
    LexIsTotalOrder();
    SortSorts(LEX, Spellings(meta, registry, name));
    hide SortBy, Lower, SortedBy, AtMost;
    if name in registry {
      ShorthandsAre(registry[name].shorthands, s);
    }
  }

  lemma ShorthandsAre(shorthands: seq<string>, s: string)
    ensures s in LowerAll(shorthands) <==> exists i :: 0 <= i < |shorthands| && s == Lower(shorthands[i])
  {
    hide Lower;
    if exists i :: 0 <= i < |shorthands| && s == Lower(shorthands[i]) {
      var i :| 0 <= i < |shorthands| && s == Lower(shorthands[i]);
      assert LowerAll(shorthands)[i] == s;
    }
  }

  method BuildEnrichmentGroups(meta: map<string, EnrichmentEntry>, registry: map<string, BuiltIn>)
      returns (groups: Groups)
    ensures groups == map name | name in meta && meta[name].target :: Sort(Spellings(meta, registry, name))
  {
    hide Sort, Lower;
    groups := map[];
    var todo := meta.Keys;
    while todo != {}
      invariant todo <= meta.Keys
      invariant groups == map name | name in meta.Keys - todo && meta[name].target ::
                            Sort(Spellings(meta, registry, name))
      decreases todo
    {
      var name :| name in todo;
      if meta[name].target {
        var list := [name];
        if name in registry {
          if registry[name].plural != "" {
            list := list + [registry[name].plural];
          }
          for i := 0 to |registry[name].shorthands|
            invariant list == [name] + (if registry[name].plural != "" then [registry[name].plural] else [])
                              + LowerAll(registry[name].shorthands)[..i]
          {
            list := list + [Lower(registry[name].shorthands[i])];
          }
        }
        list := list + meta[name].keys;
        assert list == Spellings(meta, registry, name);
        hide Spellings, Sort, LowerAll, Lower;
        groups := groups[name := Sort(list)];
      }
      todo := todo - {name};
    }
  }

  // ----- The inverse index -----

  /** The index after ranging over the groups in a given order: the last group to hold a spelling wins. */
  function IndexBy(groups: Groups, order: seq<string>): map<string, string>
    requires forall c <- order :: c in groups
  {
    if order == [] then map[]
    else
      var n := |order| - 1;
      IndexBy(groups, order[..n]) + map a | a in groups[order[n]] :: order[n]
  }

  /** init: Go ranges over the groups in any order. */
  method BuildIndex(groups: Groups) returns (index: map<string, string>)
    ensures exists order :: Enumerates(order, groups.Keys) && index == IndexBy(groups, order)
  {
    ghost var order: seq<string>;
    index, order := map[], [];
    var todo := groups.Keys;
    while todo != {}
      invariant todo <= groups.Keys && Enumerates(order, groups.Keys - todo)
      invariant index == IndexBy(groups, order)
      decreases todo
    {
      var canonical :| canonical in todo;
      ghost var before := index;
      var aliases := groups[canonical];
      for i := 0 to |aliases|
        invariant index == before + map a | a in aliases[..i] :: canonical
      {
        assert aliases[..i + 1] == aliases[..i] + [aliases[i]];
        index := index[aliases[i] := canonical];
      }
      assert aliases[..|aliases|] == aliases;
      assert (order + [canonical])[..|order|] == order;
      assert groups.Keys - (todo - {canonical}) == groups.Keys - todo + {canonical};
      order, todo := order + [canonical], todo - {canonical};
    }
    assert groups.Keys - todo == groups.Keys;
  }

  /** The index leads to a group that holds the spelling, and misses none. */
  lemma {:induction false} IndexLeadsToAGroup(groups: Groups, order: seq<string>, s: string)
    requires forall c <- order :: c in groups
    ensures s in IndexBy(groups, order) <==> exists c :: c in order && s in groups[c]
    ensures s in IndexBy(groups, order) ==>
              IndexBy(groups, order)[s] in order && IndexBy(groups, order)[s] in groups
                  && s in groups[IndexBy(groups, order)[s]]
  {
    if order != [] {
      var n := |order| - 1;
      IndexLeadsToAGroup(groups, order[..n], s);
      assert order == order[..n] + [order[n]];
      assert forall c :: c in order <==> c in order[..n] || c == order[n];
    }
  }

  // ----- Which enrichments are on -----

  /** `enrich` holds the keys requested. */
  datatype Request = Request(enrichAll: bool, enrich: seq<string>)

  predicate ShouldEnrich(r: Request, target: string) {
    r.enrichAll || target in r.enrich
  }

  predicate EnrichmentEnabled(groups: Groups, index: map<string, string>, r: Request, s: string) {
    || ShouldEnrich(r, s)
    || (s in index && index[s] in groups && exists a :: a in groups[index[s]] && ShouldEnrich(r, a))
  }

  /** An enrichment is on when everything is, when it is requested by the very spelling, or when the
      index leads from that to a group one of whose spellings is requested. */
  lemma EnabledMeans(groups: Groups, index: map<string, string>, r: Request, s: string)
    ensures EnrichmentEnabled(groups, index, r, s)
       <==> || r.enrichAll
            || (exists i :: 0 <= i < |r.enrich| && r.enrich[i] == s)
            || (s in index && index[s] in groups
                && exists i :: 0 <= i < |r.enrich| && r.enrich[i] in groups[index[s]])
  {
    if s in index && index[s] in groups && exists i :: 0 <= i < |r.enrich| && r.enrich[i] in groups[index[s]] {
      var i :| 0 <= i < |r.enrich| && r.enrich[i] in groups[index[s]];
      assert ShouldEnrich(r, r.enrich[i]);
    }
  }

  ghost predicate GroupRequested(groups: Groups, r: Request, c: string)
    requires c in groups
  {
    exists a :: a in groups[c] && ShouldEnrich(r, a)
  }

  ghost predicate InOneGroup(groups: Groups, s: string, c: string) {
    c in groups && s in groups[c] && forall d <- groups | s in groups[d] :: d == c
  }

  /** A spelling of exactly one group is on iff some spelling of that group is requested, in
      whatever order the index was built. */
  lemma EnabledIffGroupRequested(groups: Groups, order: seq<string>, r: Request, s: string, c: string)
    requires Enumerates(order, groups.Keys) && InOneGroup(groups, s, c)
    ensures EnrichmentEnabled(groups, IndexBy(groups, order), r, s) <==> GroupRequested(groups, r, c)
  {
    assert c in order;
    IndexLeadsToAGroup(groups, order, s);
  }

  /** Two spellings of a group no other group shares a spelling with always get the same answer. */
  lemma AliasesAgree(groups: Groups, order: seq<string>, r: Request, c: string, s: string, t: string)
    requires Enumerates(order, groups.Keys) && InOneGroup(groups, s, c) && InOneGroup(groups, t, c)
    ensures EnrichmentEnabled(groups, IndexBy(groups, order), r, s)
       <==> EnrichmentEnabled(groups, IndexBy(groups, order), r, t)
  {
    EnabledIffGroupRequested(groups, order, r, s, c);
    EnabledIffGroupRequested(groups, order, r, t, c);
  }

  /** The answer is the same for every iteration order. */
  ghost predicate OrderIrrelevant(groups: Groups, s: string) {
    forall r: Request, a: seq<string>, b: seq<string> | Enumerates(a, groups.Keys) && Enumerates(b, groups.Keys) ::
      EnrichmentEnabled(groups, IndexBy(groups, a), r, s) == EnrichmentEnabled(groups, IndexBy(groups, b), r, s)
  }

  ghost predicate SameSpellings(groups: Groups, c: string, d: string)
    requires c in groups && d in groups
  {
    forall x :: x in groups[c] <==> x in groups[d]
  }

  /** An order that ends with c makes the index lead there. */
  lemma LastGroupWins(groups: Groups, s: string, c: string) returns (order: seq<string>)
    requires c in groups && s in groups[c]
    ensures Enumerates(order, groups.Keys)
    ensures s in IndexBy(groups, order) && IndexBy(groups, order)[s] == c
  {
    var rest := Listing(groups.Keys - {c});
    order := rest + [c];
    assert order[..|rest|] == rest;
  }

  /** Exactly when the iteration order of a Go map cannot change the answer: all groups that hold
      the spelling have the same spellings. */
  lemma OrderIrrelevantIff(groups: Groups, s: string)
    ensures OrderIrrelevant(groups, s)
       <==> forall c, d | c in groups && d in groups && s in groups[c] && s in groups[d] :: SameSpellings(groups, c, d)
  {
    if OrderIrrelevant(groups, s) {
      forall c, d, x | c in groups && d in groups && s in groups[c] && s in groups[d] && x in groups[c]
        ensures x in groups[d]
      {
        var a := LastGroupWins(groups, s, c);
        var b := LastGroupWins(groups, s, d);
        var r := Request(false, [x]);
        assert ShouldEnrich(r, x) && EnrichmentEnabled(groups, IndexBy(groups, a), r, s);
        assert EnrichmentEnabled(groups, IndexBy(groups, b), r, s);
      }
    } else {
      var r: Request, a: seq<string>, b: seq<string> :|
        Enumerates(a, groups.Keys) && Enumerates(b, groups.Keys) &&
        EnrichmentEnabled(groups, IndexBy(groups, a), r, s) != EnrichmentEnabled(groups, IndexBy(groups, b), r, s);
      IndexLeadsToAGroup(groups, a, s);
      IndexLeadsToAGroup(groups, b, s);
      assert forall c <- groups.Keys :: c in a && c in b;
      assert !SameSpellings(groups, IndexBy(groups, a)[s], IndexBy(groups, b)[s]);
    }
  }

  // ----- The rows of the built-in table that share a spelling -----

  const PVC_ROW := EnrichmentEntry(true, [])
  const STATEFULSET_ROW := EnrichmentEntry(true, ["pvcs"])
  const PVC := BuiltIn("persistentvolumeclaims", ["pvc", "pvcs", "pvclaim"])
  const STATEFULSET := BuiltIn("statefulsets", ["sts"])

  /** With the built-in rows for claims and stateful sets, whatever the others are, "pvcs" is a
      spelling of both kinds: whether `enrich: [sts]` turns the claims of a StatefulSet on depends
      on the order a Go map was ranged over at start-up. */
  lemma PvcsDependsOnIterationOrder(meta: map<string, EnrichmentEntry>, registry: map<string, BuiltIn>, groups: Groups)
    requires "persistentvolumeclaim" in meta && meta["persistentvolumeclaim"] == PVC_ROW
    requires "statefulset" in meta && meta["statefulset"] == STATEFULSET_ROW
    requires "persistentvolumeclaim" in registry && registry["persistentvolumeclaim"] == PVC
    requires "statefulset" in registry && registry["statefulset"] == STATEFULSET
    requires groups == map name | name in meta && meta[name].target :: Sort(Spellings(meta, registry, name))
    ensures !OrderIrrelevant(groups, "pvcs")
  {
    var claim, stateful := "persistentvolumeclaim", "statefulset";
    ClaimSpellings(meta, registry);
    StatefulSetSpellings(meta, registry);
    hide Spellings, Sort;
    SortKeepsSpellings(Spellings(meta, registry, claim));
    SortKeepsSpellings(Spellings(meta, registry, stateful));
    assert "sts" in groups[stateful] && "sts" !in groups[claim];
    assert !SameSpellings(groups, stateful, claim);
    OrderIrrelevantIff(groups, "pvcs");
  }

  lemma SortKeepsSpellings(s: seq<string>)
    ensures forall x :: x in Sort(s) <==> x in s
  {
    LexIsTotalOrder();
    SortSorts(LEX, s);
  }

  lemma ClaimSpellings(meta: map<string, EnrichmentEntry>, registry: map<string, BuiltIn>)
    requires "persistentvolumeclaim" in meta && meta["persistentvolumeclaim"] == PVC_ROW
    requires "persistentvolumeclaim" in registry && registry["persistentvolumeclaim"] == PVC
    ensures "pvcs" in Spellings(meta, registry, "persistentvolumeclaim")
    ensures "sts" !in Spellings(meta, registry, "persistentvolumeclaim")
  {
    assert Lower("pvc") == "pvc" && Lower("pvcs") == "pvcs" && Lower("pvclaim") == "pvclaim";
    assert LowerAll(["pvc", "pvcs", "pvclaim"]) == ["pvc", "pvcs", "pvclaim"];
    var spellings := Spellings(meta, registry, "persistentvolumeclaim");
    assert spellings == ["persistentvolumeclaim", "persistentvolumeclaims", "pvc", "pvcs", "pvclaim"];
    assert spellings[3] == "pvcs";
  }

  lemma StatefulSetSpellings(meta: map<string, EnrichmentEntry>, registry: map<string, BuiltIn>)
    requires "statefulset" in meta && meta["statefulset"] == STATEFULSET_ROW
    requires "statefulset" in registry && registry["statefulset"] == STATEFULSET
    ensures "pvcs" in Spellings(meta, registry, "statefulset") && "sts" in Spellings(meta, registry, "statefulset")
  {
    assert Lower("sts") == "sts" && LowerAll(["sts"]) == ["sts"];
    var spellings := Spellings(meta, registry, "statefulset");
    assert spellings == ["statefulset", "statefulsets", "sts", "pvcs"];
    assert spellings[2] == "sts" && spellings[3] == "pvcs";
  }

  /** Requests add up. */
  lemma EnabledByEither(groups: Groups, index: map<string, string>, a: seq<string>, b: seq<string>, s: string)
    ensures EnrichmentEnabled(groups, index, Request(false, a + b), s)
       <==> || EnrichmentEnabled(groups, index, Request(false, a), s)
            || EnrichmentEnabled(groups, index, Request(false, b), s)
  {
  }
}
