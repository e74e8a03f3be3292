/** Lexicographic order on strings, and sort.Strings. */
module StringOrder {
  import opened Sorting

  predicate AtMost(a: string, b: string) {
    a == "" || (b != "" && (a[0] < b[0] || (a[0] == b[0] && AtMost(a[1..], b[1..]))))
  }

  lemma {:induction false} AtMostTotal(a: string, b: string)
    ensures AtMost(a, b) || AtMost(b, a)
  {
    if a != "" && b != "" { AtMostTotal(a[1..], b[1..]); }
  }

  lemma {:induction false} AtMostAntisymmetric(a: string, b: string)
    requires AtMost(a, b) && AtMost(b, a)
    ensures a == b
  {
    if a != "" && b != "" {
      AtMostAntisymmetric(a[1..], b[1..]);
      assert a == [a[0]] + a[1..] && b == [b[0]] + b[1..];
    }
  }

  lemma {:induction false} AtMostTransitive(a: string, b: string, c: string)
    requires AtMost(a, b) && AtMost(b, c)
    ensures AtMost(a, c)
  {
    if a != "" && b != "" && c != "" && a[0] == b[0] == c[0] {
      AtMostTransitive(a[1..], b[1..], c[1..]);
    }
  }

  /** Where two strings part: after all of the one that comes first, or at a smaller character of it. */
  ghost predicate PartAt(a: string, b: string, n: nat) {
    n <= |a| && n <= |b| && a[..n] == b[..n] && (n == |a| || (n < |b| && a[n] < b[n]))
  }

  lemma SameHead(a: string, b: string, n: nat)
    requires PartAt(a, b, n) && n > 0
    ensures b != "" && a[0] == b[0]
  {
    assert a[..n][0] == b[..n][0];
  }

  lemma {:induction false} AtMostIff(a: string, b: string)
    ensures AtMost(a, b) <==> exists n: nat :: PartAt(a, b, n)
  {
    if a == "" {
      assert PartAt(a, b, 0);
    } else if b == "" || a[0] != b[0] {
      if exists n: nat :: PartAt(a, b, n) {
        var n: nat :| PartAt(a, b, n);
        if n > 0 { SameHead(a, b, n); }
      }
      if b != "" && a[0] < b[0] { assert PartAt(a, b, 0); }
    } else {
      AtMostIff(a[1..], b[1..]);
      if AtMost(a[1..], b[1..]) {
        var n: nat :| PartAt(a[1..], b[1..], n);
        assert a[..n + 1] == [a[0]] + a[1..][..n] && b[..n + 1] == [b[0]] + b[1..][..n];
        assert PartAt(a, b, n + 1);
      }
      if exists n: nat :: PartAt(a, b, n) {
        var n: nat :| PartAt(a, b, n);
        if n > 0 {
          assert a[1..][..n - 1] == a[..n][1..] && b[1..][..n - 1] == b[..n][1..];
          assert PartAt(a[1..], b[1..], n - 1);
        }
      }
    }
  }

  const LEX: (string, string) -> bool := (a, b) => AtMost(a, b)

  lemma LexIsTotalOrder()
    ensures TotalOrder(LEX)
  {
    forall a, b ensures LEX(a, b) || LEX(b, a) { AtMostTotal(a, b); }
    forall a, b | LEX(a, b) && LEX(b, a) ensures a == b { AtMostAntisymmetric(a, b); }
    forall a, b, c | LEX(a, b) && LEX(b, c) ensures LEX(a, c) { AtMostTransitive(a, b, c); }
  }

  predicate Sorted(s: seq<string>) { SortedBy(LEX, s) }

  /** sort.Strings */
  function Sort(s: seq<string>): seq<string> { SortBy(LEX, s) }

  lemma LeastFirst(s: seq<string>, x: string)
    requires Sorted(s) && x in s
    ensures AtMost(s[0], x)
  {
    LexIsTotalOrder();
    FirstIsLeast(LEX, s, x);
  }

  lemma SortKeepsEnumeration(s: seq<string>, elements: set<string>)
    requires Enumerates(s, elements)
    ensures Sorted(Sort(s)) && Enumerates(Sort(s), elements)
  {
    LexIsTotalOrder();
    SortSorts(LEX, s);
    EnumerationIsTheSet(s, elements);
    OnceEach(Sort(s));
  }

  /** Two enumerations of the same set sort to the same sequence. */
  lemma SortedEnumeration(a: seq<string>, b: seq<string>, elements: set<string>)
    requires Enumerates(a, elements) && Enumerates(b, elements)
    ensures Sort(a) == Sort(b)
  {
    LexIsTotalOrder();
    EnumerationIsTheSet(a, elements);
    EnumerationIsTheSet(b, elements);
    SortForgetsOrder(LEX, a, b);
  }

  lemma SortingSortedChangesNothing(s: seq<string>)
    requires forall i, j | 0 <= i < j < |s| :: AtMost(s[i], s[j])
    ensures Sort(s) == s
  {
    LexIsTotalOrder();
    SortSorts(LEX, s);
    SortedIsUnique(LEX, Sort(s), s);
  }
}
