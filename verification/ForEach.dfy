/** Expanding template sources that declare forEach (pkg/children/foreach.go). */
module ForEach {
  import opened Common
  import opened Sorting
  import opened StringOrder
  import opened Text
  import opened Values

  // ----- Field paths -----

  method SplitFieldPath(path: string) returns (parts: seq<string>)
    ensures parts == Split(path, '.')
  {
    parts := [];
    var start := 0;
    assert path[..0] == "";
    for i := 0 to |path|
      invariant start <= i
      invariant Split(path[..i], '.') == parts + [path[start..i]]
    {
      hide Split;
      SplitOneMore(path[..i], path[i], '.');
      assert path[..i + 1] == path[..i] + [path[i]];
      assert path[start..i + 1] == path[start..i] + [path[i]];
      if path[i] == '.' {
        parts := parts + [path[start..i]];
        start := i + 1;
        assert path[start..i + 1] == "";
      }
    }
    assert path[..|path|] == path;
    parts := parts + [path[start..]];
  }

  /** Following keys from a value: nothing past a value that is not a map, nil for a missing key. */
  function Follow(v: Value, keys: seq<string>): Option<Value>
    decreases keys
  {
    if keys == [] then Some(v)
    else if !v.Map? then None
    else Follow(if keys[0] in v.fields then v.fields[keys[0]] else Null, keys[1..])
  }

  /** The values met on the way: each key leads from a map to what it holds under the key, nil for a
      missing key. */
  ghost predicate Walks(v: Value, keys: seq<string>, met: seq<Value>) {
    && |met| == |keys| + 1 && met[0] == v
    && forall i | 0 <= i < |keys| ::
         met[i].Map? && met[i + 1] == if keys[i] in met[i].fields then met[i].fields[keys[i]] else Null
  }

  /** The keys lead to w. */
  ghost predicate LeadsTo(v: Value, keys: seq<string>, w: Value) {
    exists met: seq<Value> :: Walks(v, keys, met) && met[|keys|] == w
  }

  lemma WalkOn(v: Value, keys: seq<string>, met: seq<Value>)
    requires keys != [] && v.Map?
    requires Walks(if keys[0] in v.fields then v.fields[keys[0]] else Null, keys[1..], met)
    ensures Walks(v, keys, [v] + met)
  {
    var all := [v] + met;
    forall i | 0 <= i < |keys|
      ensures all[i].Map? && all[i + 1] == if keys[i] in all[i].fields then all[i].fields[keys[i]] else Null
    {
      if i > 0 { assert keys[1..][i - 1] == keys[i] && all[i] == met[i - 1] && all[i + 1] == met[i]; }
    }
  }

  lemma WalkRest(v: Value, keys: seq<string>, met: seq<Value>)
    requires keys != [] && Walks(v, keys, met)
    ensures v.Map? && Walks(if keys[0] in v.fields then v.fields[keys[0]] else Null, keys[1..], met[1..])
  {
    forall i | 0 <= i < |keys| - 1
      ensures var at := met[1..][i];
              at.Map? && met[1..][i + 1] == if keys[1..][i] in at.fields then at.fields[keys[1..][i]] else Null
    {
      assert met[i + 1].Map?;
    }
  }

  /** Following keys ends where they lead, if they lead anywhere. */
  lemma {:induction false} FollowIff(v: Value, keys: seq<string>, w: Value)
    ensures Follow(v, keys) == Some(w) <==> LeadsTo(v, keys, w)
    decreases keys
  {
    if keys == [] {
      assert Walks(v, keys, [v]);
    } else if v.Map? {
      var next := if keys[0] in v.fields then v.fields[keys[0]] else Null;
      FollowIff(next, keys[1..], w);
      if LeadsTo(next, keys[1..], w) {
        var met: seq<Value> :| Walks(next, keys[1..], met) && met[|keys[1..]|] == w;
        WalkOn(v, keys, met);
        assert ([v] + met)[|keys|] == w;
      }
      if LeadsTo(v, keys, w) {
        var met: seq<Value> :| Walks(v, keys, met) && met[|keys|] == w;
        WalkRest(v, keys, met);
        assert met[1..][|keys[1..]|] == w;
      }
    }
  }

  // ----- Items -----

  /** value is nil for the items of a list. */
  datatype Item = Item(key: Value, value: Value)

  function ListItems(list: seq<Value>): seq<Item> {
    seq(|list|, i requires 0 <= i < |list| => Item(list[i], Null))
  }

  function MapItems(m: Fields, keys: seq<string>): seq<Item>
    requires forall i | 0 <= i < |keys| :: keys[i] in m
  {
    seq(|keys|, i requires 0 <= i < |keys| => Item(Str(keys[i]), m[keys[i]]))
  }

  /** The keys of a map in ascending order, of which there is one listing (SortedKeysAreUnique). */
  ghost function SortedKeys(m: Fields): (keys: seq<string>)
    ensures Enumerates(keys, m.Keys) && Sorted(keys)
    ensures forall i | 0 <= i < |keys| :: keys[i] in m
  {
    SortKeepsEnumeration(Listing(m.Keys), m.Keys);
    Sort(Listing(m.Keys))
  }

  lemma SortedKeysAreUnique(m: Fields, keys: seq<string>)
    requires Enumerates(keys, m.Keys)
    ensures Sort(keys) == SortedKeys(m)
  {
    SortedEnumeration(keys, Listing(m.Keys), m.Keys);
  }

  /** One item for each element of a list or key of a map, none for anything else. */
  ghost function ItemsOf(v: Option<Value>): seq<Item> {
    if v.None? then []
    else if v.value.List? then ListItems(v.value.items)
    else if v.value.Map? then MapItems(v.value.fields, SortedKeys(v.value.fields))
    else []
  }

  ghost function ItemsAt(data: Fields, path: string): seq<Item> { ItemsOf(Follow(Map(data), Split(path, '.'))) }

  method ResolveForEachItems(data: Fields, path: string) returns (items: seq<Item>)
    ensures items == ItemsAt(data, path)
  {
    var current := Map(data);
    var parts := SplitFieldPath(path);
    for i := 0 to |parts|
      invariant Follow(current, parts[i..]) == Follow(Map(data), parts)
    {
      assert parts[i..][1..] == parts[i + 1..];
      if !current.Map? {
        return [];
      }
      current := if parts[i] in current.fields then current.fields[parts[i]] else Null;
    }
    assert parts[|parts|..] == [];
    if current.List? {
      return ListItems(current.items);
    }
    if current.Map? {
      var keys := Ranged(current.fields.Keys);
      SortedKeysAreUnique(current.fields, keys);
      return MapItems(current.fields, Sort(keys));
    }
    items := [];
  }

  /** A value under keys without dots is addressed by the keys joined with dots. */
  lemma PathAddresses(data: Fields, keys: seq<string>)
    requires keys != [] && Free(keys, '.')
    ensures ItemsAt(data, Join(keys, ".")) == ItemsOf(Follow(Map(data), keys))
  {
    SplitUndoesJoin(keys, '.');
  }

  // ----- Expansion -----

  datatype ForEachSpec = ForEachSpec(field: string, as_: string)

  /** The template resolver: its data, and the copies scoped to an item. */
  datatype Resolvers<!R> = Resolvers(
    data: R -> Fields,
    withItem: (R, Value, string, nat) -> R,
    withItemAndValue: (R, Value, Value, string, nat) -> R)

  /** A type of template source: its forEach, and its copy resolved for an item. */
  datatype SourceType<!R, !T> = SourceType(getForEach: T -> Option<ForEachSpec>, resolve: (R, T) -> T)

  /** A template source: its forEach, and everything else. */
  datatype Source<P> = Source(parts: P, forEach: Option<ForEachSpec>)

  /** The 23 source types of the file: each resolve function clears ForEach on the copy and resolves
      some of the rest, in its own way. */
  function Kind<R, P>(resolveParts: (R, P) -> P): SourceType<R, Source<P>> {
    SourceType((s: Source<P>) => s.forEach, (ir, s: Source<P>) => Source(resolveParts(ir, s.parts), None))
  }

  function ItemResolver<R>(rs: Resolvers<R>, base: R, item: Item, as_: string, index: nat): R {
    if item.value != Null then rs.withItemAndValue(base, item.key, item.value, as_, index)
    else rs.withItem(base, item.key, as_, index)
  }

  /** One copy of a source for each item, resolved for the item and its index. */
  function Copies<R, T>(rs: Resolvers<R>, st: SourceType<R, T>, base: R, src: T, as_: string,
      items: seq<Item>): seq<T> {
    seq(|items|, i requires 0 <= i < |items| => st.resolve(ItemResolver(rs, base, items[i], as_, i), src))
  }

  ghost function ExpandOne<R, T>(rs: Resolvers<R>, st: SourceType<R, T>, base: R, src: T): seq<T> {
    match st.getForEach(src)
    case None => [src]
    case Some(fe) => Copies(rs, st, base, src, fe.as_, ItemsAt(rs.data(base), fe.field))
  }

  /** The sources one after the other, each replaced by its copies. */
  ghost function Expansion<R, T>(rs: Resolvers<R>, st: SourceType<R, T>, base: R, srcs: seq<T>): seq<T> {
    if srcs == [] then []
    else
      var n := |srcs| - 1;
      Expansion(rs, st, base, srcs[..n]) + ExpandOne(rs, st, base, srcs[n])
  }

  predicate NoForEach<R, T>(st: SourceType<R, T>, srcs: seq<T>) {
    forall i | 0 <= i < |srcs| :: st.getForEach(srcs[i]).None?
  }

  method AnyHasForEach<R, T>(st: SourceType<R, T>, srcs: seq<T>) returns (any: bool)
    ensures any <==> !NoForEach(st, srcs)
  {
    for i := 0 to |srcs|
      invariant forall j | 0 <= j < i :: st.getForEach(srcs[j]).None?
    {
      if st.getForEach(srcs[i]).Some? {
        return true;
      }
    }
    any := false;
  }

  /** The inner loop of expandForEach. */
  method AppendCopies<R, T>(rs: Resolvers<R>, st: SourceType<R, T>, base: R, src: T, as_: string, items: seq<Item>,
      result: seq<T>)
    returns (more: seq<T>)
    ensures more == result + Copies(rs, st, base, src, as_, items)
  {
    ghost var copies := Copies(rs, st, base, src, as_, items);
    more := result;
    for i := 0 to |items|
      invariant more == result + copies[..i]
    {
      var ir := ItemResolver(rs, base, items[i], as_, i);
      more := more + [st.resolve(ir, src)];
    }
  }

  method ExpandForEach<R, T>(rs: Resolvers<R>, st: SourceType<R, T>, base: R, srcs: seq<T>) returns (result: seq<T>)
    ensures result == Expansion(rs, st, base, srcs)
  {
    var any := AnyHasForEach(st, srcs);
    if !any {
      NothingToExpand(rs, st, base, srcs);
      return srcs;
    }
    result := [];
    for k := 0 to |srcs|
      invariant result == Expansion(rs, st, base, srcs[..k])
    {
      ExpansionStep(rs, st, base, srcs[..k], srcs[k]);
      assert srcs[..k + 1] == srcs[..k] + [srcs[k]];
      hide Expansion, ItemsAt, Copies, NoForEach;
      var fe := st.getForEach(srcs[k]);
      if fe.None? {
        result := result + [srcs[k]];
        continue;
      }
      var items := ResolveForEachItems(rs.data(base), fe.value.field);
      result := AppendCopies(rs, st, base, srcs[k], fe.value.as_, items, result);
    }
    assert srcs[..|srcs|] == srcs;
  }

  /** The fast path agrees with the loop. */
  lemma {:induction false} NothingToExpand<R, T>(rs: Resolvers<R>, st: SourceType<R, T>, base: R, srcs: seq<T>)
    requires NoForEach(st, srcs)
    ensures Expansion(rs, st, base, srcs) == srcs
  {
    if srcs != [] {
      NothingToExpand(rs, st, base, srcs[..|srcs| - 1]);
    }
  }

  lemma CopiesHaveNoForEach<R, P>(
      rs: Resolvers<R>, resolveParts: (R, P) -> P, base: R, src: Source<P>)
    ensures NoForEach(Kind(resolveParts), ExpandOne(rs, Kind(resolveParts), base, src))
  {
    hide ItemResolver, ItemsAt;
    var st, fe := Kind(resolveParts), src.forEach;
    if fe.Some? {
      var items := ItemsAt(rs.data(base), fe.value.field);
      forall i | 0 <= i < |items| ensures st.getForEach(Copies(rs, st, base, src, fe.value.as_, items)[i]).None? {
        var ir := ItemResolver(rs, base, items[i], fe.value.as_, i);
        assert st.getForEach(st.resolve(ir, src)).None?;
      }
    }
  }

  lemma NoForEachJoins<R, T>(st: SourceType<R, T>, a: seq<T>, b: seq<T>)
    requires NoForEach(st, a) && NoForEach(st, b)
    ensures NoForEach(st, a + b)
  {
  }

  /** Of any of the source types, no source in the result declares forEach. */
  lemma {:induction false} NoForEachLeft<R, P>(
      rs: Resolvers<R>, resolveParts: (R, P) -> P, base: R, srcs: seq<Source<P>>)
    ensures NoForEach(Kind(resolveParts), Expansion(rs, Kind(resolveParts), base, srcs))
  {
    hide Kind, ExpandOne;
    if |srcs| > 0 {
      var n := |srcs| - 1;
      NoForEachLeft(rs, resolveParts, base, srcs[..n]);
      CopiesHaveNoForEach(rs, resolveParts, base, srcs[n]);
      hide NoForEach;
      NoForEachJoins(Kind(resolveParts), Expansion(rs, Kind(resolveParts), base, srcs[..n]),
                     ExpandOne(rs, Kind(resolveParts), base, srcs[n]));
    }
  }

  /** Expanding again, with any resolver, changes nothing. */
  lemma ExpandingTwiceIsOnce<R, P>(
      rs: Resolvers<R>, resolveParts: (R, P) -> P, base: R, again: R, srcs: seq<Source<P>>)
    ensures Expansion(rs, Kind(resolveParts), again, Expansion(rs, Kind(resolveParts), base, srcs))
         == Expansion(rs, Kind(resolveParts), base, srcs)
  {
    hide *;
    NoForEachLeft(rs, resolveParts, base, srcs);
    NothingToExpand(rs, Kind(resolveParts), again, Expansion(rs, Kind(resolveParts), base, srcs));
  }

  /** The list comes back as it was exactly when the fast path applies. */
  lemma UnchangedIffNoForEach<R, P>(rs: Resolvers<R>, resolveParts: (R, P) -> P, base: R, srcs: seq<Source<P>>)
    ensures Expansion(rs, Kind(resolveParts), base, srcs) == srcs <==> NoForEach(Kind(resolveParts), srcs)
  {
    hide *;
    NoForEachLeft(rs, resolveParts, base, srcs);
    if NoForEach(Kind(resolveParts), srcs) { NothingToExpand(rs, Kind(resolveParts), base, srcs); }
  }

  lemma ExpansionStep<R, T>(rs: Resolvers<R>, st: SourceType<R, T>, base: R, srcs: seq<T>, src: T)
    ensures Expansion(rs, st, base, srcs + [src]) == Expansion(rs, st, base, srcs) + ExpandOne(rs, st, base, src)
  {
    hide ExpandOne;
    assert (srcs + [src])[..|srcs|] == srcs;
  }

  lemma ConcatStep<R, T>(rs: Resolvers<R>, st: SourceType<R, T>, base: R, a: seq<T>, before: seq<T>, last: T)
    requires Expansion(rs, st, base, a + before) == Expansion(rs, st, base, a) + Expansion(rs, st, base, before)
    ensures Expansion(rs, st, base, a + (before + [last]))
              == Expansion(rs, st, base, a) + Expansion(rs, st, base, before + [last])
  {
    hide *;
    ExpansionStep(rs, st, base, a + before, last);
    ExpansionStep(rs, st, base, before, last);
    Regroup(a, before, [last]);
    Regroup(Expansion(rs, st, base, a), Expansion(rs, st, base, before), ExpandOne(rs, st, base, last));
  }

  /** The expansion of a list is the expansions of its parts in order. */
  lemma {:induction false} ExpansionConcat<R, T>(rs: Resolvers<R>, st: SourceType<R, T>, base: R, a: seq<T>, b: seq<T>)
    ensures Expansion(rs, st, base, a + b) == Expansion(rs, st, base, a) + Expansion(rs, st, base, b)
  {
    if |b| == 0 {
      assert a + b == a;
      hide ExpandOne;
    } else {
      hide *;
      var before, last := b[..|b| - 1], b[|b| - 1];
      ExpansionConcat(rs, st, base, a, before);
      ConcatStep(rs, st, base, a, before, last);
      AllButLast(b);
    }
  }

  /** A source with forEach gives one copy per list element or map key, and is dropped when the
      field is neither. */
  lemma CopiesPerItem<R, T>(rs: Resolvers<R>, st: SourceType<R, T>, base: R, src: T, fe: ForEachSpec)
    requires st.getForEach(src) == Some(fe)
    ensures |Expansion(rs, st, base, [src])| ==
              match Follow(Map(rs.data(base)), Split(fe.field, '.')) {
                case Some(List(items)) => |items|
                case Some(Map(fields)) => |fields|
                case _ => 0
              }
  {
    assert [src][..0] == [];
    var v := Follow(Map(rs.data(base)), Split(fe.field, '.'));
    if v.Some? && v.value.Map? {
      EnumerationIsTheSet(SortedKeys(v.value.fields), v.value.fields.Keys);
    }
  }

  // ----- What the copies are resolved for -----

  lemma OneSource<R, T>(rs: Resolvers<R>, st: SourceType<R, T>, base: R, src: T, fe: ForEachSpec, keys: seq<string>)
    requires st.getForEach(src) == Some(fe) && fe.field == Join(keys, ".") && keys != [] && Free(keys, '.')
    ensures Expansion(rs, st, base, [src])
         == Copies(rs, st, base, src, fe.as_, ItemsOf(Follow(Map(rs.data(base)), keys)))
  {
    PathAddresses(rs.data(base), keys);
    hide ItemsOf, Copies;
    assert [src][..0] == [] && [] + ExpandOne(rs, st, base, src) == ExpandOne(rs, st, base, src);
  }

  lemma CopyAt<R, T>(rs: Resolvers<R>, st: SourceType<R, T>, base: R, src: T, as_: string, items: seq<Item>, i: nat)
    requires i < |items| == |Copies(rs, st, base, src, as_, items)|
    ensures Copies(rs, st, base, src, as_, items)[i]
         == if items[i].value == Null then st.resolve(rs.withItem(base, items[i].key, as_, i), src)
            else st.resolve(rs.withItemAndValue(base, items[i].key, items[i].value, as_, i), src)
  {
    var ir := ItemResolver(rs, base, items[i], as_, i);
    assert Copies(rs, st, base, src, as_, items)[i] == st.resolve(ir, src);
  }

  lemma ItemsOfList(vs: seq<Value>)
    ensures |ItemsOf(Some(List(vs)))| == |vs|
    ensures forall i | 0 <= i < |vs| :: ItemsOf(Some(List(vs)))[i] == Item(vs[i], Null)
  {
  }

  lemma ItemsOfMap(m: Fields, ks: seq<string>)
    requires Enumerates(ks, m.Keys) && forall i, j | 0 <= i < j < |ks| :: AtMost(ks[i], ks[j])
    ensures |ItemsOf(Some(Map(m)))| == |ks|
    ensures forall i | 0 <= i < |ks| :: ks[i] in m && ItemsOf(Some(Map(m)))[i] == Item(Str(ks[i]), m[ks[i]])
  {
    AscendingIsUnique(m, ks);
  }

  /** The items at a path that leads to a list: its elements, without values. */
  lemma ListItemsAtPath(data: Fields, keys: seq<string>, vs: seq<Value>)
    requires keys != [] && Free(keys, '.') && LeadsTo(Map(data), keys, List(vs))
    ensures |ItemsAt(data, Join(keys, "."))| == |vs|
    ensures forall i | 0 <= i < |vs| :: ItemsAt(data, Join(keys, "."))[i] == Item(vs[i], Null)
  {
    hide *;
    FollowIff(Map(data), keys, List(vs));
    PathAddresses(data, keys);
    ItemsOfList(vs);
  }

  /** The items at a path that leads to a map: its keys in ascending order, with their values. */
  lemma MapItemsAtPath(data: Fields, keys: seq<string>, m: Fields, ks: seq<string>)
    requires keys != [] && Free(keys, '.') && LeadsTo(Map(data), keys, Map(m))
    requires Enumerates(ks, m.Keys) && forall i, j | 0 <= i < j < |ks| :: AtMost(ks[i], ks[j])
    ensures |ItemsAt(data, Join(keys, "."))| == |ks|
    ensures forall i | 0 <= i < |ks| :: ks[i] in m && ItemsAt(data, Join(keys, "."))[i] == Item(Str(ks[i]), m[ks[i]])
  {
    hide *;
    FollowIff(Map(data), keys, Map(m));
    PathAddresses(data, keys);
    ItemsOfMap(m, ks);
  }

  /** If the field leads to a list, copy i is resolved for its i-th element and i. */
  lemma ListCopies<R, T>(rs: Resolvers<R>, st: SourceType<R, T>, base: R, src: T, fe: ForEachSpec, keys: seq<string>,
                         vs: seq<Value>)
    requires st.getForEach(src) == Some(fe) && fe.field == Join(keys, ".") && keys != [] && Free(keys, '.')
    requires LeadsTo(Map(rs.data(base)), keys, List(vs))
    ensures |Expansion(rs, st, base, [src])| == |vs|
    ensures forall i | 0 <= i < |vs| ::
              Expansion(rs, st, base, [src])[i] == st.resolve(rs.withItem(base, vs[i], fe.as_, i), src)
  {
    hide *;
    FollowIff(Map(rs.data(base)), keys, List(vs));
    OneSource(rs, st, base, src, fe, keys);
    ItemsOfList(vs);
    var items := ItemsOf(Some(List(vs)));
    OneCopyEach(rs, st, base, src, fe.as_, items);
    forall i | 0 <= i < |vs|
      ensures Expansion(rs, st, base, [src])[i] == st.resolve(rs.withItem(base, vs[i], fe.as_, i), src)
    {
      CopyAt(rs, st, base, src, fe.as_, items, i);
    }
  }

  lemma OneCopyEach<R, T>(rs: Resolvers<R>, st: SourceType<R, T>, base: R, src: T, as_: string, items: seq<Item>)
    ensures |Copies(rs, st, base, src, as_, items)| == |items|
  {
  }

  /** If it leads to a map, copy i is resolved for the i-th key in ascending order, for the value under
      it unless that is nil, and for i. */
  lemma MapCopies<R, T>(rs: Resolvers<R>, st: SourceType<R, T>, base: R, src: T, fe: ForEachSpec, keys: seq<string>,
                        m: Fields, ks: seq<string>)
    requires st.getForEach(src) == Some(fe) && fe.field == Join(keys, ".") && keys != [] && Free(keys, '.')
    requires LeadsTo(Map(rs.data(base)), keys, Map(m))
    requires Enumerates(ks, m.Keys) && forall i, j | 0 <= i < j < |ks| :: AtMost(ks[i], ks[j])
    ensures |Expansion(rs, st, base, [src])| == |ks|
    ensures forall i | 0 <= i < |ks| ::
              && ks[i] in m
              && Expansion(rs, st, base, [src])[i]
                 == if m[ks[i]] == Null then st.resolve(rs.withItem(base, Str(ks[i]), fe.as_, i), src)
                    else st.resolve(rs.withItemAndValue(base, Str(ks[i]), m[ks[i]], fe.as_, i), src)
  {
    ItemsOfMap(m, ks);
    hide *;
    FollowIff(Map(rs.data(base)), keys, Map(m));
    OneSource(rs, st, base, src, fe, keys);
    var items := ItemsOf(Some(Map(m)));
    OneCopyEach(rs, st, base, src, fe.as_, items);
    forall i | 0 <= i < |ks|
      ensures Expansion(rs, st, base, [src])[i]
           == if m[ks[i]] == Null then st.resolve(rs.withItem(base, Str(ks[i]), fe.as_, i), src)
              else st.resolve(rs.withItemAndValue(base, Str(ks[i]), m[ks[i]], fe.as_, i), src)
    {
      CopyAt(rs, st, base, src, fe.as_, items, i);
    }
  }

  /** If it leads to anything else, or nowhere, there are no copies. */
  lemma NoCopies<R, T>(rs: Resolvers<R>, st: SourceType<R, T>, base: R, src: T, fe: ForEachSpec, keys: seq<string>)
    requires st.getForEach(src) == Some(fe) && fe.field == Join(keys, ".") && keys != [] && Free(keys, '.')
    requires forall w: Value | LeadsTo(Map(rs.data(base)), keys, w) :: !w.List? && !w.Map?
    ensures Expansion(rs, st, base, [src]) == []
  {
    var v := Follow(Map(rs.data(base)), keys);
    if v.Some? { FollowIff(Map(rs.data(base)), keys, v.value); }
    OneSource(rs, st, base, src, fe, keys);
    hide Follow, LeadsTo, ItemsAt, Split, Join, Expansion;
  }

  lemma AscendingIsUnique(m: Fields, ks: seq<string>)
    requires Enumerates(ks, m.Keys) && forall i, j | 0 <= i < j < |ks| :: AtMost(ks[i], ks[j])
    ensures ks == SortedKeys(m)
  {
    SortedKeysAreUnique(m, ks);
    SortingSortedChangesNothing(ks);
  }

  // ----- The namespaces among the source types -----

  datatype NamespaceParts = NamespaceParts(name: string, finalizers: seq<string>, labels: map<string, string>)

  /** resolveMap: keys are kept, values resolved. */
  method ResolveMap<R>(resolve: (R, string) -> string, ir: R, m: map<string, string>) returns (out: map<string, string>)
    ensures out == map k | k in m :: resolve(ir, m[k])
  {
    if |m| == 0 {
      return m;
    }
    out := map[];
    var todo := m.Keys;
    while todo != {}
      invariant todo <= m.Keys
      invariant out == map k | k in m.Keys - todo :: resolve(ir, m[k])
      decreases todo
    {
      var k :| k in todo;
      out, todo := out[k := resolve(ir, m[k])], todo - {k};
    }
  }

  function ResolveNamespace<R>(resolve: (R, string) -> string, ir: R, parts: NamespaceParts): NamespaceParts {
    NamespaceParts(
      resolve(ir, parts.name),
      seq(|parts.finalizers|, i requires 0 <= i < |parts.finalizers| => resolve(ir, parts.finalizers[i])),
      map k | k in parts.labels :: resolve(ir, parts.labels[k]))
  }

  function Namespaces<R>(resolve: (R, string) -> string): SourceType<R, Source<NamespaceParts>> {
    Kind((ir, parts: NamespaceParts) => ResolveNamespace(resolve, ir, parts))
  }

  /** A namespace resolved for an item: every text resolved in its own place, and no forEach. */
  predicate IsResolvedFor<R>(resolve: (R, string) -> string, ir: R, src: Source<NamespaceParts>,
                             out: Source<NamespaceParts>) {
    && out.forEach.None? && out.parts.name == resolve(ir, src.parts.name)
    && |out.parts.finalizers| == |src.parts.finalizers|
    && (forall i | 0 <= i < |out.parts.finalizers| ::
          out.parts.finalizers[i] == resolve(ir, src.parts.finalizers[i]))
    && out.parts.labels.Keys == src.parts.labels.Keys
    && forall k <- out.parts.labels :: out.parts.labels[k] == resolve(ir, src.parts.labels[k])
  }

  lemma NamespaceIsResolved<R>(resolve: (R, string) -> string, ir: R, src: Source<NamespaceParts>)
    ensures IsResolvedFor(resolve, ir, src, Namespaces(resolve).resolve(ir, src))
  {
  }

  /** The i-th namespace of a list source is resolved for the i-th element. */
  lemma NamespacePerElement<R>(rs: Resolvers<R>, resolve: (R, string) -> string, base: R, src: Source<NamespaceParts>,
                               fe: ForEachSpec, keys: seq<string>, vs: seq<Value>, i: nat)
    requires src.forEach == Some(fe) && fe.field == Join(keys, ".") && keys != [] && Free(keys, '.')
    requires LeadsTo(Map(rs.data(base)), keys, List(vs)) && i < |vs|
    ensures |Expansion(rs, Namespaces(resolve), base, [src])| == |vs|
    ensures IsResolvedFor(resolve, rs.withItem(base, vs[i], fe.as_, i), src,
                          Expansion(rs, Namespaces(resolve), base, [src])[i])
  {
    assert Namespaces(resolve).getForEach(src) == Some(fe);
    hide *;
    ListCopies(rs, Namespaces(resolve), base, src, fe, keys, vs);
    NamespaceIsResolved(resolve, rs.withItem(base, vs[i], fe.as_, i), src);
  }

  /** The i-th namespace of a map source is resolved for the i-th key and the value under it. */
  lemma NamespacePerKey<R>(rs: Resolvers<R>, resolve: (R, string) -> string, base: R, src: Source<NamespaceParts>,
                           fe: ForEachSpec, keys: seq<string>, m: Fields, ks: seq<string>, i: nat)
    requires src.forEach == Some(fe) && fe.field == Join(keys, ".") && keys != [] && Free(keys, '.')
    requires LeadsTo(Map(rs.data(base)), keys, Map(m)) && i < |ks|
    requires Enumerates(ks, m.Keys) && forall i, j | 0 <= i < j < |ks| :: AtMost(ks[i], ks[j])
    ensures |Expansion(rs, Namespaces(resolve), base, [src])| == |ks| && ks[i] in m
    ensures IsResolvedFor(resolve,
                          if m[ks[i]] == Null then rs.withItem(base, Str(ks[i]), fe.as_, i)
                          else rs.withItemAndValue(base, Str(ks[i]), m[ks[i]], fe.as_, i),
                          src, Expansion(rs, Namespaces(resolve), base, [src])[i])
  {
    assert Namespaces(resolve).getForEach(src) == Some(fe);
    hide *;
    MapCopies(rs, Namespaces(resolve), base, src, fe, keys, m, ks);
    NamespaceIsResolved(resolve, rs.withItem(base, Str(ks[i]), fe.as_, i), src);
    NamespaceIsResolved(resolve, rs.withItemAndValue(base, Str(ks[i]), m[ks[i]], fe.as_, i), src);
  }
}
