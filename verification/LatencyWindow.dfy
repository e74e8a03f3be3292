/** The rolling latency window shared by the admission and conversion statistics
    (pkg/health/admission_stats.go, pkg/health/conversion_stats.go). */
module LatencyWindow {
  import opened Sorting

  // ----- What the window reports, told from the whole history of samples -----

  function Sum(h: seq<int>): int {
    if h == [] then 0 else Sum(h[..|h| - 1]) + h[|h| - 1]
  }

  /** The running maximum starts from 0. */
  function RunningMax(h: seq<int>): int {
    if h == [] then 0
    else
      var m := RunningMax(h[..|h| - 1]);
      if h[|h| - 1] > m then h[|h| - 1] else m
  }

  /** The running minimum uses 0 for "unset". */
  function RunningMin(h: seq<int>): int {
    if h == [] then 0
    else
      var m := RunningMin(h[..|h| - 1]);
      if m == 0 || h[|h| - 1] < m then h[|h| - 1] else m
  }

  /** What one more sample does to the three. */
  lemma OneMoreSample(h: seq<int>, d: int)
    ensures Sum(h + [d]) == Sum(h) + d
    ensures RunningMax(h + [d]) == if d > RunningMax(h) then d else RunningMax(h)
    ensures RunningMin(h + [d]) == if RunningMin(h) == 0 || d < RunningMin(h) then d else RunningMin(h)
  {
    assert (h + [d])[..|h|] == h;
  }

  /** The last min(|h|, size) samples. */
  function Window(h: seq<int>, size: nat): seq<int> {
    if |h| <= size then h else h[|h| - size..]
  }

  lemma WindowIsNewest(h: seq<int>, size: nat)
    ensures |Window(h, size)| == if |h| <= size then |h| else size
    ensures forall i | 0 <= i < |Window(h, size)| :: Window(h, size)[i] == h[|h| - |Window(h, size)| + i]
  {
  }

  const ASCENDING: (int, int) -> bool := (a, b) => a <= b

  lemma AscendingIsTotalOrder()
    ensures TotalOrder(ASCENDING)
  {
  }

  /** The fraction num/den as a rank among `size` samples, cut off at the last one. */
  function Rank(size: nat, num: nat, den: nat): (k: nat)
    requires size > 0 && den > 0
    ensures k < size
  {
    var k := size * num / den;
    if k >= size then size - 1 else k
  }

  function Percentile(samples: seq<int>, num: nat, den: nat): int
    requires den > 0
  {
    if samples == [] then 0
    else
      AscendingIsTotalOrder();
      SortSorts(ASCENDING, samples);
      SortBy(ASCENDING, samples)[Rank(|samples|, num, den)]
  }

  lemma NoSamples(num: nat, den: nat)
    requires den > 0
    ensures Percentile([], num, den) == 0
  {
  }

  /** How the percentile is read off. */
  lemma PercentilePicks(samples: seq<int>, num: nat, den: nat)
    requires den > 0 && samples != []
    ensures |SortBy(ASCENDING, samples)| == |samples|
    ensures Percentile(samples, num, den) == SortBy(ASCENDING, samples)[Rank(|samples|, num, den)]
  {
    AscendingIsTotalOrder();
    SortSorts(ASCENDING, samples);
  }

  // ----- The percentile is an order statistic -----

  function Below(s: seq<int>, x: int): nat {
    if s == [] then 0 else (if s[0] < x then 1 else 0) + Below(s[1..], x)
  }

  function UpTo(s: seq<int>, x: int): nat {
    if s == [] then 0 else (if s[0] <= x then 1 else 0) + UpTo(s[1..], x)
  }

  lemma {:induction false} InsertCounts(v: int, s: seq<int>, x: int)
    ensures Below(InsertBy(ASCENDING, v, s), x) == Below([v], x) + Below(s, x)
    ensures UpTo(InsertBy(ASCENDING, v, s), x) == UpTo([v], x) + UpTo(s, x)
  {
    if s == [] || v <= s[0] {
      assert ([v] + s)[1..] == s;
    } else {
      InsertCounts(v, s[1..], x);
      assert InsertBy(ASCENDING, v, s)[1..] == InsertBy(ASCENDING, v, s[1..]);
    }
  }

  lemma {:induction false} SortCounts(s: seq<int>, x: int)
    ensures Below(SortBy(ASCENDING, s), x) == Below(s, x) && UpTo(SortBy(ASCENDING, s), x) == UpTo(s, x)
  {
    if s != [] {
      SortCounts(s[1..], x);
      InsertCounts(s[0], SortBy(ASCENDING, s[1..]), x);
    }
  }

  /** In a sorted sequence at most k elements are below the one at k, and at least k + 1 up to it. */
  lemma {:induction false} SortedRank(s: seq<int>, k: nat)
    requires SortedBy(ASCENDING, s) && k < |s|
    ensures Below(s, s[k]) <= k && UpTo(s, s[k]) >= k + 1
  {
    if k == 0 {
      NoneBelow(s, s[0]);
    } else {
      SortedRank(s[1..], k - 1);
    }
  }

  lemma {:induction false} NoneBelow(s: seq<int>, x: int)
    requires forall i | 0 <= i < |s| :: x <= s[i]
    ensures Below(s, x) == 0
  {
    if s != [] { NoneBelow(s[1..], x); }
  }

  /** p is the sample at the fraction num/den: it has at most that fraction of the samples below it,
      and more than that fraction, or all of them, up to it. */
  predicate AtFraction(p: int, samples: seq<int>, num: nat, den: nat) {
    && p in samples
    && Below(samples, p) * den <= |samples| * num
    && (UpTo(samples, p) * den > |samples| * num || UpTo(samples, p) == |samples|)
  }

  /** The rank is the greatest index up to the fraction of the size. */
  lemma RankIsGreatest(size: nat, num: nat, den: nat)
    requires size > 0 && den > 0
    ensures Rank(size, num, den) < size && Rank(size, num, den) * den <= size * num
    ensures forall k: nat | k < size && k * den <= size * num :: k <= Rank(size, num, den)
  {
    var q := size * num / den;
    assert size * num == den * q + size * num % den;
    var k := Rank(size, num, den);
    assert k * den == den * k && den * (q - k) == den * q - den * k;
    MultipleIsFar(den, q - k);
    forall j: nat | j < size && j * den <= size * num ensures j <= k {
      assert den * (j - q) == j * den - den * q;
      MultipleIsFar(den, j - q);
    }
  }

  lemma {:induction false} CountsUpToAll(s: seq<int>, x: int)
    ensures UpTo(s, x) <= |s|
  {
    if s != [] { CountsUpToAll(s[1..], x); }
  }

  lemma CountsAtRank(samples: seq<int>, num: nat, den: nat)
    requires den > 0 && samples != []
    ensures Percentile(samples, num, den) in samples
    ensures Below(samples, Percentile(samples, num, den)) <= Rank(|samples|, num, den)
    ensures UpTo(samples, Percentile(samples, num, den)) >= Rank(|samples|, num, den) + 1
  {
    AscendingIsTotalOrder();
    SortSorts(ASCENDING, samples);
    var sorted, k := SortBy(ASCENDING, samples), Rank(|samples|, num, den);
    SortedRank(sorted, k);
    SortCounts(samples, sorted[k]);
    assert sorted[k] in sorted;
  }

  lemma PercentileIsOrderStatistic(samples: seq<int>, num: nat, den: nat)
    requires den > 0 && samples != []
    ensures AtFraction(Percentile(samples, num, den), samples, num, den)
  {
    var p, k, n := Percentile(samples, num, den), Rank(|samples|, num, den), |samples|;
    CountsAtRank(samples, num, den);
    RankIsGreatest(n, num, den);
    CountsUpToAll(samples, p);
    hide Percentile, Rank, Below, UpTo;
    TimesGrows(Below(samples, p), k, den);
    TimesGrows(k + 1, UpTo(samples, p), den);
    assert k + 1 < n ==> !((k + 1) * den <= n * num);
  }

  lemma TimesGrows(a: nat, b: nat, den: nat)
    requires a <= b
    ensures a * den <= b * den
  {
  }

  /** It depends on which samples there are, not on where in the ring they lie. */
  lemma PercentileIgnoresRotation(a: seq<int>, b: seq<int>, num: nat, den: nat)
    requires den > 0
    ensures Percentile(a + b, num, den) == Percentile(b + a, num, den)
  {
    AscendingIsTotalOrder();
    assert multiset(a + b) == multiset(b + a);
    SortForgetsOrder(ASCENDING, a + b, b + a);
    assert a + b == [] <==> b + a == [];
  }

  // ----- Minimum, average, percentile, maximum -----

  predicate Positive(h: seq<int>) { forall i | 0 <= i < |h| :: h[i] > 0 }
  predicate NonNegative(h: seq<int>) { forall i | 0 <= i < |h| :: h[i] >= 0 }

  predicate IsMinimum(m: int, h: seq<int>) { m in h && forall i | 0 <= i < |h| :: m <= h[i] }
  predicate IsMaximum(m: int, h: seq<int>) { m in h && forall i | 0 <= i < |h| :: h[i] <= m }

  lemma {:induction false} RunningMaxIsMaximum(h: seq<int>)
    requires NonNegative(h) && h != []
    ensures IsMaximum(RunningMax(h), h)
  {
    if |h| > 1 {
      RunningMaxIsMaximum(h[..|h| - 1]);
    }
  }

  lemma {:induction false} RunningMinWithoutZero(h: seq<int>)
    requires Positive(h) && h != []
    ensures IsMinimum(RunningMin(h), h)
  {
    if |h| > 1 {
      RunningMinWithoutZero(h[..|h| - 1]);
    }
  }

  lemma {:induction false} RunningMinIsZeroIff(h: seq<int>)
    requires NonNegative(h) && h != []
    ensures RunningMin(h) >= 0 && (RunningMin(h) == 0 <==> h[|h| - 1] == 0)
  {
    if |h| > 1 {
      RunningMinIsZeroIff(h[..|h| - 1]);
    }
  }

  /** Because 0 means "unset", the reported minimum is the minimum exactly when no sample was 0 or
      the newest one is. */
  lemma RunningMinIsMinimumIff(h: seq<int>)
    requires NonNegative(h) && h != []
    ensures IsMinimum(RunningMin(h), h) <==> 0 !in h || h[|h| - 1] == 0
  {
    RunningMinIsZeroIff(h);
    if 0 !in h {
      RunningMinWithoutZero(h);
    }
  }

  /** 5, 0, 7: after the 0 the minimum counts as unset, and 7 is reported. */
  lemma MinimumForgetsBeforeAZero()
    ensures RunningMin([5, 0, 7]) == 7 && !IsMinimum(7, [5, 0, 7])
  {
    assert [5, 0, 7][..2] == [5, 0] && [5, 0][..1] == [5] && [5][..0] == [];
  }

  lemma {:induction false} RunningMaxBounds(h: seq<int>)
    ensures RunningMax(h) >= 0 && forall i | 0 <= i < |h| :: h[i] <= RunningMax(h)
  {
    if h != [] {
      RunningMaxBounds(h[..|h| - 1]);
    }
  }

  /** The sum of all samples, in whatever two stretches they are taken. */
  lemma {:induction false} SumOfBoth(a: seq<int>, b: seq<int>)
    ensures Sum(a + b) == Sum(a) + Sum(b)
    ensures forall d :: Sum([d]) == d
  {
    forall d ensures Sum([d]) == d { assert [d][..0] == []; }
    if b == [] {
      assert a + b == a;
    } else {
      SumOfBoth(a, b[..|b| - 1]);
      assert (a + b)[..|a + b| - 1] == a + b[..|b| - 1];
    }
  }

  lemma {:induction false} SumAtMost(h: seq<int>, hi: int)
    requires forall i | 0 <= i < |h| :: h[i] <= hi
    ensures Sum(h) <= |h| * hi
  {
    if h != [] {
      var n := |h| - 1;
      SumAtMost(h[..n], hi);
      assert (n + 1) * hi == n * hi + hi;
    }
  }

  lemma {:induction false} SumAtLeast(h: seq<int>, lo: int)
    requires forall i | 0 <= i < |h| :: lo <= h[i]
    ensures |h| * lo <= Sum(h)
  {
    if h != [] {
      var n := |h| - 1;
      SumAtLeast(h[..n], lo);
      assert (n + 1) * lo == n * lo + lo;
    }
  }

  /** Go's division of durations truncates toward zero. */
  function Quotient(a: int, b: int): int
    requires b > 0
  {
    if a >= 0 then a / b else -((-a) / b)
  }

  /** q is the whole number of times b fits into a, counted toward zero. */
  predicate Truncates(q: int, a: int, b: int) {
    if a >= 0 then q >= 0 && q * b <= a < (q + 1) * b else q <= 0 && (q - 1) * b < a <= q * b
  }

  lemma DivisionTruncates(m: nat, b: int)
    requires b > 0
    ensures m / b >= 0 && (m / b) * b <= m < (m / b) * b + b
  {
    assert m == b * (m / b) + m % b;
    MultipleIsFar(b, m / b);
  }

  lemma Distribute(q: int, b: int)
    ensures (q + 1) * b == q * b + b && (-q) * b == -(q * b) && (-q - 1) * b == -(q * b) - b
  {
  }

  lemma QuotientTruncates(a: int, b: int)
    requires b > 0
    ensures Truncates(Quotient(a, b), a, b)
  {
    var m := if a >= 0 then a else -a;
    DivisionTruncates(m, b);
    var q := m / b;
    Distribute(q, b);
    assert Quotient(a, b) == if a >= 0 then q else -q;
    hide Quotient;
  }

  lemma QuotientAtMost(a: int, b: int, hi: int)
    requires b > 0 && hi >= 0 && a <= b * hi
    ensures Quotient(a, b) <= hi
  {
    if a >= 0 {
      var q := a / b;
      assert a == b * q + a % b;
      assert b * (q - hi) == b * q - b * hi;
      MultipleIsFar(b, q - hi);
    } else {
      var q := (-a) / b;
      assert -a == b * q + (-a) % b;
      MultipleIsFar(b, q);
    }
  }

  lemma QuotientAtLeast(a: int, b: int, lo: int)
    requires b > 0 && 0 <= lo && b * lo <= a
    ensures lo <= Quotient(a, b)
  {
    assert 0 <= b * lo;
    var q := a / b;
    assert a == b * q + a % b;
    assert b * (lo - q) == b * lo - b * q;
    MultipleIsFar(b, lo - q);
  }

  lemma MultipleIsFar(size: nat, k: int)
    requires size > 0
    ensures k > 0 ==> size * k >= size
    ensures k < 0 ==> size * k + size <= 0
  {
  }

  lemma SamplesOfWindow(h: seq<int>, size: nat, num: nat, den: nat)
    requires h != [] && size > 0 && den > 0
    ensures Percentile(Window(h, size), num, den) in h
  {
    CountsAtRank(Window(h, size), num, den);
    assert forall v <- Window(h, size) :: v in h;
  }

  /** The average of all samples and the percentile of the window are at most the maximum, whatever
      the durations; they are at least the minimum wherever that is the minimum. */
  lemma ReportIsOrdered(h: seq<int>, size: nat, num: nat, den: nat)
    requires h != [] && size > 0 && den > 0
    ensures Quotient(Sum(h), |h|) <= RunningMax(h) && Percentile(Window(h, size), num, den) <= RunningMax(h)
    ensures NonNegative(h) && IsMinimum(RunningMin(h), h) ==>
              RunningMin(h) <= Quotient(Sum(h), |h|) && RunningMin(h) <= Percentile(Window(h, size), num, den)
  {
    SamplesOfWindow(h, size, num, den);
    RunningMaxBounds(h);
    SumAtMost(h, RunningMax(h));
    QuotientAtMost(Sum(h), |h|, RunningMax(h));
    if NonNegative(h) && IsMinimum(RunningMin(h), h) {
      SumAtLeast(h, RunningMin(h));
      QuotientAtLeast(Sum(h), |h|, RunningMin(h));
    }
  }

  // ----- The ring -----

  /** The ring, told from the history: the index is the number of samples modulo the size, filled
      says whether it has been all round, and the two stretches on either side of the index are the
      newest samples and the ones before them. */
  ghost predicate Refines(ring: seq<int>, index: nat, filled: bool, h: seq<int>) {
    var size, n := |ring|, |h|;
    && size > 0 && index == n % size && index <= n
    && (filled <==> n >= size)
    && ring[..index] == h[n - index..]
    && (if filled then ring[index..] == h[n - size..n - index] else index == n)
  }

  lemma ModuloStep(n: nat, size: nat)
    requires size > 0
    ensures (n + 1) % size == (n % size + 1) % size
    ensures n % size + 1 < size ==> (n + 1) % size == n % size + 1
    ensures n % size + 1 == size ==> (n + 1) % size == 0
  {
    var q, r := n / size, n % size;
    assert n == size * q + r;
    if r + 1 < size {
      ModuloOf(n + 1, size, q, r + 1);
    } else {
      assert n + 1 == size * (q + 1);
      ModuloOf(n + 1, size, q + 1, 0);
    }
  }

  lemma ModuloOf(n: nat, size: nat, q: nat, r: nat)
    requires size > 0 && r < size && n == size * q + r
    ensures n % size == r
  {
    var q', r' := n / size, n % size;
    assert n == size * q' + r';
    assert size * (q - q') == r' - r;
    MultipleIsFar(size, q - q');
  }

  /** Slot i holds the newest sample whose number is i modulo the size. */
  lemma SlotHoldsNewest(ring: seq<int>, index: nat, filled: bool, h: seq<int>, i: nat)
    requires Refines(ring, index, filled, h) && i < |ring| && i < |h|
    ensures exists j: nat :: j < |h| && |h| <= j + |ring| && j % |ring| == i && ring[i] == h[j]
  {
    var size, n := |ring|, |h|;
    var q := n / size;
    assert n == size * q + index;
    if i < index {
      var j := n - index + i;
      ModuloOf(j, size, q, i);
      assert ring[i] == ring[..index][i] == h[n - index..][i] == h[j];
    } else {
      var j := n - size + (i - index);
      assert q == 0 ==> n == index;
      assert j == size * (q - 1) + i;
      ModuloOf(j, size, q - 1, i);
      assert ring[i] == ring[index..][i - index] == h[n - size..n - index][i - index] == h[j];
    }
  }

  lemma RefinesNextSlot(ring: seq<int>, index: nat, filled: bool, h: seq<int>, d: int)
    requires Refines(ring, index, filled, h) && index + 1 < |ring| && (|h| + 1) % |ring| == index + 1
    ensures Refines(ring[index := d], index + 1, filled, h + [d])
  {
    var size, n := |ring|, |h|;
    var ring', h', next := ring[index := d], h + [d], index + 1;
    assert ring'[..next] == ring[..index] + [d] == h[n - index..] + [d] == h'[n + 1 - next..];
    if filled {
      assert ring'[next..] == ring[index..][1..] == h[n - size..n - index][1..] == h'[n + 1 - size..n + 1 - next];
    }
  }

  lemma RefinesWrap(ring: seq<int>, index: nat, filled: bool, h: seq<int>, d: int)
    requires Refines(ring, index, filled, h) && index + 1 == |ring| && (|h| + 1) % |ring| == 0
    ensures Refines(ring[index := d], 0, true, h + [d])
  {
    var size, n := |ring|, |h|;
    var ring', h' := ring[index := d], h + [d];
    assert ring' == ring[..index] + [d] == h[n - index..] + [d] == h'[n + 1 - size..];
    assert ring'[0..] == ring' && h'[n + 1 - size..n + 1] == h'[n + 1 - size..];
  }

  lemma RefinesStep(ring: seq<int>, index: nat, filled: bool, h: seq<int>, d: int)
    requires Refines(ring, index, filled, h)
    ensures index < |ring|
    ensures Refines(ring[index := d], (index + 1) % |ring|, filled || (index + 1) % |ring| == 0, h + [d])
  {
    ModuloStep(|h|, |ring|);
    if index + 1 < |ring| {
      RefinesNextSlot(ring, index, filled, h, d);
    } else {
      RefinesWrap(ring, index, filled, h, d);
    }
  }

  /** The part of the ring the percentile reads is the window, up to a rotation. */
  lemma ReadPartIsWindow(ring: seq<int>, index: nat, filled: bool, h: seq<int>, num: nat, den: nat)
    requires Refines(ring, index, filled, h) && den > 0
    ensures index <= |ring|
    ensures var part := if filled then ring else ring[..index];
            && multiset(part) == multiset(Window(h, |ring|))
            && |part| == |Window(h, |ring|)|
            && Percentile(part, num, den) == Percentile(Window(h, |ring|), num, den)
  {
    var size, n := |ring|, |h|;
    if filled {
      var newer, older := h[n - index..], h[n - size..n - index];
      assert ring == ring[..index] + ring[index..] == newer + older;
      assert Window(h, size) == older + newer;
      PercentileIgnoresRotation(newer, older, num, den);
      assert multiset(newer + older) == multiset(older + newer);
    } else {
      assert ring[..index] == h == Window(h, size);
    }
  }
}
