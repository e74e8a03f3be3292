/** Sorting by a total order: what sort.Strings and sort.Slice return. */
module Sorting {

  ghost predicate TotalOrder<T(!new)>(le: (T, T) -> bool) {
    && (forall a, b :: le(a, b) || le(b, a))
    && (forall a, b :: le(a, b) && le(b, a) ==> a == b)
    && (forall a, b, c :: le(a, b) && le(b, c) ==> le(a, c))
  }

  predicate SortedBy<T>(le: (T, T) -> bool, s: seq<T>) {
    forall i, j :: 0 <= i < j < |s| ==> le(s[i], s[j])
  }

  function InsertBy<T>(le: (T, T) -> bool, x: T, s: seq<T>): seq<T> {
    if s == [] || le(x, s[0]) then [x] + s else [s[0]] + InsertBy(le, x, s[1..])
  }

  /** The ascending rearrangement (SortSorts), which is unique (SortedIsUnique). */
  function SortBy<T>(le: (T, T) -> bool, s: seq<T>): seq<T> {
    if s == [] then [] else InsertBy(le, s[0], SortBy(le, s[1..]))
  }

  lemma {:induction false} InsertKeepsOrder<T(!new)>(le: (T, T) -> bool, x: T, s: seq<T>)
    requires TotalOrder(le) && SortedBy(le, s)
    ensures SortedBy(le, InsertBy(le, x, s)) && multiset(InsertBy(le, x, s)) == multiset(s) + multiset{x}
  {
    if s == [] {
    } else if le(x, s[0]) {
      forall j | 0 <= j < |s| ensures le(x, s[j]) {
        if j > 0 { assert le(s[0], s[j]); }
      }
    } else {
      assert le(s[0], x);
      InsertKeepsOrder(le, x, s[1..]);
      assert s == [s[0]] + s[1..];
      var rest := InsertBy(le, x, s[1..]);
      forall j | 0 <= j < |rest| ensures le(s[0], rest[j]) {
        assert rest[j] in multiset(rest);
        assert rest[j] == x || rest[j] in s[1..];
      }
    }
  }

  lemma {:induction false} SortSorts<T(!new)>(le: (T, T) -> bool, s: seq<T>)
    requires TotalOrder(le)
    ensures SortedBy(le, SortBy(le, s)) && multiset(SortBy(le, s)) == multiset(s)
    ensures |SortBy(le, s)| == |s| && forall x :: x in SortBy(le, s) <==> x in s
  {
    if s != [] {
      SortSorts(le, s[1..]);
      InsertKeepsOrder(le, s[0], SortBy(le, s[1..]));
      assert s == [s[0]] + s[1..];
    }
    SameElements(SortBy(le, s), s);
  }

  lemma SameElements<T>(a: seq<T>, b: seq<T>)
    requires multiset(a) == multiset(b)
    ensures |a| == |b| && forall x :: x in a <==> x in b
  {
    assert |a| == |multiset(a)| == |multiset(b)| == |b|;
    assert forall x :: x in a <==> x in multiset(a);
    assert forall x :: x in b <==> x in multiset(b);
  }

  lemma FirstIsLeast<T(!new)>(le: (T, T) -> bool, a: seq<T>, x: T)
    requires TotalOrder(le) && SortedBy(le, a) && x in a
    ensures le(a[0], x)
  {
    assert le(x, x);
  }

  lemma FirstsAgree<T(!new)>(le: (T, T) -> bool, a: seq<T>, b: seq<T>)
    requires TotalOrder(le) && SortedBy(le, a) && SortedBy(le, b) && multiset(a) == multiset(b) && a != []
    ensures b != [] && a[0] == b[0]
  {
    assert a[0] in multiset(a);
    assert a[0] in b;
    assert b[0] in multiset(b);
    FirstIsLeast(le, a, b[0]);
    FirstIsLeast(le, b, a[0]);
  }

  lemma TailElements<T>(s: seq<T>)
    requires s != []
    ensures multiset(s[1..]) == multiset(s) - multiset{s[0]}
  {
    assert s == [s[0]] + s[1..];
  }

  lemma TailsAgree<T(!new)>(le: (T, T) -> bool, a: seq<T>, b: seq<T>)
    requires TotalOrder(le) && SortedBy(le, a) && SortedBy(le, b) && multiset(a) == multiset(b) && a != []
    ensures b != [] && a[0] == b[0] && SortedBy(le, a[1..]) && SortedBy(le, b[1..])
    ensures multiset(a[1..]) == multiset(b[1..])
  {
    FirstsAgree(le, a, b);
    hide TotalOrder;
    TailElements(a);
    TailElements(b);
  }

  lemma {:induction false} SortedIsUnique<T(!new)>(le: (T, T) -> bool, a: seq<T>, b: seq<T>)
    requires TotalOrder(le) && SortedBy(le, a) && SortedBy(le, b) && multiset(a) == multiset(b)
    ensures a == b
  {
    hide *;
    if |a| == 0 {
      assert |multiset(b)| == 0;
    } else {
      TailsAgree(le, a, b);
      SortedIsUnique(le, a[1..], b[1..]);
      assert a == [a[0]] + a[1..] && b == [b[0]] + b[1..];
    }
  }

  /** The order the elements come in does not matter. */
  lemma SortForgetsOrder<T(!new)>(le: (T, T) -> bool, a: seq<T>, b: seq<T>)
    requires TotalOrder(le) && multiset(a) == multiset(b)
    ensures SortBy(le, a) == SortBy(le, b)
  {
    SortSorts(le, a);
    SortSorts(le, b);
    SortedIsUnique(le, SortBy(le, a), SortBy(le, b));
  }

  // ----- Sequences that list a set -----

  predicate NoDuplicates<T(==)>(s: seq<T>) {
    forall i, j :: 0 <= i < j < |s| ==> s[i] != s[j]
  }

  ghost predicate Enumerates<T(!new)>(s: seq<T>, elements: set<T>) {
    NoDuplicates(s) && forall x :: x in s <==> x in elements
  }

  lemma TailEnumerates<T(!new)>(s: seq<T>, elements: set<T>)
    requires Enumerates(s, elements) && s != []
    ensures s[0] in elements && Enumerates(s[1..], elements - {s[0]})
  {
    assert s[0] in s;
    forall x ensures x in s[1..] <==> x in elements - {s[0]} {
      assert s == [s[0]] + s[1..];
      assert x in s <==> x == s[0] || x in s[1..];
    }
  }

  lemma {:induction false} EnumerationIsTheSet<T(!new)>(s: seq<T>, elements: set<T>)
    requires Enumerates(s, elements)
    ensures multiset(s) == multiset(elements) && |s| == |elements|
  {
    if s == [] {
      assert elements == {};
    } else {
      TailEnumerates(s, elements);
      hide Enumerates;
      EnumerationIsTheSet(s[1..], elements - {s[0]});
      assert s == [s[0]] + s[1..];
      assert multiset(elements) == multiset(elements - {s[0]}) + multiset{s[0]};
    }
  }

  lemma OnceEach<T>(s: seq<T>)
    requires forall x <- s :: multiset(s)[x] <= 1
    ensures NoDuplicates(s)
  {
    forall i, j | 0 <= i < j < |s| ensures s[i] != s[j] {
      assert s == s[..j] + [s[j]] + s[j + 1..];
      assert s[i] in multiset(s[..j]) by { assert s[..j][i] == s[i]; }
      assert multiset(s)[s[j]] == multiset(s[..j])[s[j]] + 1 + multiset(s[j + 1..])[s[j]];
      assert multiset(s)[s[j]] <= 1;
    }
  }

  /** Some enumeration of a set. */
  ghost function Listing<T(!new)>(s: set<T>): (r: seq<T>)
    ensures Enumerates(r, s)
  {
    if s == {} then [] else
      var x :| x in s;
      [x] + Listing(s - {x})
  }

  /** The elements of a set in the arbitrary order Go ranges over a map. */
  method Ranged<T(==, !new)>(elements: set<T>) returns (order: seq<T>)
    ensures Enumerates(order, elements)
  {
    order := [];
    var todo := elements;
    while todo != {}
      invariant todo <= elements && Enumerates(order, elements - todo)
      decreases todo
    {
      var x :| x in todo;
      assert elements - (todo - {x}) == elements - todo + {x};
      order, todo := order + [x], todo - {x};
    }
    assert elements - {} == elements;
  }
}
