/** The statistics objects of the health server, each method under its mutex
    (pkg/health/admission_stats.go, pkg/health/conversion_stats.go). */
module HealthStats {
  import opened Sorting
  import opened LatencyWindow

  /** Sorts samples and picks the one at the rank. */
  method PickOf(samples: seq<int>, num: nat, den: nat) returns (p: int)
    requires den > 0 && samples != []
    ensures p == Percentile(samples, num, den)
  {
    PercentilePicks(samples, num, den);
    hide Percentile, SortBy;
    var latencies := SortBy(ASCENDING, samples);
    var idx := |samples| * num / den;
    if idx >= |samples| {
      idx := |samples| - 1;
    }
    p := latencies[idx];
  }

  /** The latency fields both statistics keep: totals, extremes and a ring of the newest samples. */
  class LatencyTrack {
    var total: int
    var max: int
    var min: int
    const ring: array<int>
    var index: nat
    var filled: bool
    ghost var history: seq<int>

    ghost predicate Valid()
      reads this, ring
    {
      && Refines(ring[..], index, filled, history)
      && total == Sum(history) && max == RunningMax(history) && min == RunningMin(history)
    }

    constructor (size: nat)
      requires size > 0
      ensures Valid() && fresh(ring) && ring.Length == size && history == []
    {
      total, max, min, index, filled, history := 0, 0, 0, 0, false, [];
      ring := new int[size](i => 0);
      new;
      assert 0 % size == 0;
    }

    method Record(d: int)
      requires Valid()
      modifies this, ring
      ensures Valid() && history == old(history) + [d]
    {
      hide Refines, Sum, RunningMax, RunningMin;
      RefinesStep(ring[..], index, filled, history, d);
      OneMoreSample(history, d);
      total := total + d;
      if d > max {
        max := d;
      }
      if min == 0 || d < min {
        min := d;
      }
      ghost var before := ring[..];
      ring[index] := d;
      assert ring[..] == before[index := d];
      index := (index + 1) % ring.Length;
      if index == 0 {
        filled := true;
      }
      history := history + [d];
    }

    /** Copies the filled part of the ring, sorts it and picks the rank. */
    method PercentileOf(num: nat, den: nat) returns (p: int)
      requires Valid() && den > 0
      ensures p == Percentile(Window(history, ring.Length), num, den)
      ensures if history == [] then p == 0 else AtFraction(p, Window(history, ring.Length), num, den)
    {
      hide Refines, Sum, RunningMax, RunningMin, Percentile, Window, AtFraction;
      RingHolds(ring[..], index, filled, history);
      PercentileAtFraction(history, ring.Length, num, den);
      var size := if filled then ring.Length else index;
      ReadPart(ring[..], index, filled, history, num, den);
      if size == 0 {
        NoSamples(num, den);
        return 0;
      }
      var latencies: seq<int> := [];
      for i := 0 to size
        invariant latencies == ring[..i]
      {
        latencies := latencies + [ring[i]];
      }
      p := PickOf(latencies, num, den);
    }

    /** The mean of the whole history: callers pass the number of samples. */
    method Average(count: nat) returns (average: int)
      requires Valid() && count == |history| > 0
      ensures average == Quotient(Sum(history), |history|)
    {
      average := Quotient(total, count);
    }
  }

  lemma RingHolds(ring: seq<int>, index: nat, filled: bool, h: seq<int>)
    requires Refines(ring, index, filled, h)
    ensures |ring| > 0 && index <= |ring|
  {
  }

  /** The percentile of the stretch that is read. */
  lemma ReadPart(ring: seq<int>, index: nat, filled: bool, h: seq<int>, num: nat, den: nat)
    requires Refines(ring, index, filled, h) && den > 0 && index <= |ring|
    ensures Percentile(ring[..if filled then |ring| else index], num, den) == Percentile(Window(h, |ring|), num, den)
  {
    ReadPartIsWindow(ring, index, filled, h, num, den);
    hide *;
    assert ring[..|ring|] == ring;
  }

  lemma PercentileAtFraction(h: seq<int>, size: nat, num: nat, den: nat)
    requires size > 0 && den > 0
    ensures if h == [] then Percentile(Window(h, size), num, den) == 0
            else AtFraction(Percentile(Window(h, size), num, den), Window(h, size), num, den)
  {
    if h == [] {
      NoSamples(num, den);
    } else {
      PercentileIsOrderStatistic(Window(h, size), num, den);
    }
  }

  /** Microseconds, truncated, as milliseconds. */
  function MsFloat(d: int): real { Quotient(d, 1000) as real / 1000.0 }

  /** What is shown is a whole number of microseconds, less than one away from the duration, on the side
      of zero. */
  lemma MsFloatIs(d: int)
    ensures exists us: int ::
              && MsFloat(d) * 1000.0 == us as real
              && if d >= 0 then 0 <= us && us * 1000 <= d < us * 1000 + 1000
                 else us <= 0 && us * 1000 - 1000 < d <= us * 1000
  {
    var us := Quotient(d, 1000);
    QuotientTruncates(d, 1000);
    hide Quotient;
    assert MsFloat(d) * 1000.0 == us as real;
  }

  lemma QuotientGrows(a: int, b: int, d: int)
    requires a <= b && d > 0
    ensures Quotient(a, d) <= Quotient(b, d)
  {
    if a >= 0 {
      DivisionGrows(a, b, d);
    } else if b < 0 {
      DivisionGrows(-b, -a, d);
    } else {
      DivisionGrows(0, -a, d);
      DivisionGrows(0, b, d);
    }
  }

  lemma DivisionGrows(a: nat, b: nat, d: int)
    requires a <= b && d > 0
    ensures 0 <= a / d <= b / d
  {
    var q, r := a / d, b / d;
    assert a == d * q + a % d && b == d * r + b % d;
    assert d * (q - r) == d * q - d * r < d;
    MultipleIsFar(d, q - r);
    MultipleIsFar(d, q);
  }

  lemma MsFloatIsMonotone(a: int, b: int)
    requires a <= b
    ensures MsFloat(a) <= MsFloat(b)
  {
    QuotientGrows(a, b, 1000);
    hide Quotient;
  }

  datatype AdmissionSnapshot = AdmissionSnapshot(
    validationTotal: nat, validationAllowed: nat, validationDenied: nat, validationWarned: nat,
    valAvgLatencyMs: real, valP95LatencyMs: real, valMaxLatencyMs: real,
    mutationTotal: nat, mutationApplied: nat, mutationSkipped: nat,
    mutAvgLatencyMs: real, mutP95LatencyMs: real, mutMaxLatencyMs: real,
    webhooksEnabled: bool)

  /** The three latencies a snapshot shows for a history: average, 95th percentile, maximum. */
  function Shown(h: seq<int>, size: nat): (real, real, real) {
    (if h == [] then 0.0 else MsFloat(Quotient(Sum(h), |h|)),
     MsFloat(Percentile(Window(h, size), 95, 100)),
     if h == [] then 0.0 else MsFloat(RunningMax(h)))
  }

  /** The 95th percentile that is shown: of the newest samples, at most 95 in 100 are below it, and more
      than that, or all, are up to it. */
  lemma ShownPercentile(h: seq<int>, size: nat)
    requires size > 0
    ensures if h == [] then Shown(h, size).1 == 0.0
            else exists p :: AtFraction(p, Window(h, size), 95, 100) && Shown(h, size).1 == MsFloat(p)
  {
    PercentileAtFraction(h, size, 95, 100);
    hide AtFraction, Percentile, Window;
    assert MsFloat(0) == 0.0;
  }

  /** The average and the maximum that are shown. */
  lemma ShownExtremes(h: seq<int>, size: nat)
    requires size > 0 && h != []
    ensures exists mean :: Truncates(mean, Sum(h), |h|) && Shown(h, size).0 == MsFloat(mean)
    ensures NonNegative(h) ==> exists m :: IsMaximum(m, h) && Shown(h, size).2 == MsFloat(m)
  {
    var mean := Quotient(Sum(h), |h|);
    QuotientTruncates(Sum(h), |h|);
    hide Quotient, Sum, RunningMax, MsFloat, Percentile, Window, IsMaximum, NonNegative, Truncates;
    assert Shown(h, size).0 == MsFloat(mean);
    if NonNegative(h) { RunningMaxIsMaximum(h); }
  }

  class AdmissionStats {
    var validationTotal: nat
    var validationAllowed: nat
    var validationDenied: nat
    var validationWarned: nat
    var mutationTotal: nat
    var mutationApplied: nat
    var mutationSkipped: nat
    const validation: LatencyTrack
    const mutation: LatencyTrack

    ghost const Repr: set<object> := {this, validation, validation.ring, mutation, mutation.ring}

    /** Every call is counted once in its total and once by its outcome, and has one sample. */
    ghost predicate Valid()
      reads this, validation, validation.ring, mutation, mutation.ring
    {
      && validation != mutation && validation.ring != mutation.ring
      && validation.ring.Length == mutation.ring.Length
      && validation.Valid() && mutation.Valid()
      && validationTotal == validationAllowed + validationDenied + validationWarned == |validation.history|
      && mutationTotal == mutationApplied + mutationSkipped == |mutation.history|
    }

    constructor (windowSize: int)
      ensures Valid() && fresh(Repr)
      ensures validation.history == mutation.history == []
      ensures validation.ring.Length == if windowSize <= 0 then 1000 else windowSize
      ensures validationTotal == mutationTotal == 0
    {
      hide Refines, Sum, RunningMax, RunningMin;
      var size: nat := if windowSize <= 0 then 1000 else windowSize;
      validationTotal, validationAllowed, validationDenied, validationWarned := 0, 0, 0, 0;
      mutationTotal, mutationApplied, mutationSkipped := 0, 0, 0;
      validation := new LatencyTrack(size);
      mutation := new LatencyTrack(size);
    }

    method RecordValidationAllowed(duration: int)
      requires Valid()
      modifies this, validation, validation.ring
      ensures Valid() && validation.history == old(validation.history) + [duration]
      ensures validationAllowed == old(validationAllowed) + 1
      ensures unchanged(`validationDenied, `validationWarned, `mutationTotal, `mutationApplied, `mutationSkipped)
    {
      hide Refines, Sum, RunningMax, RunningMin;
      validationTotal := validationTotal + 1;
      validationAllowed := validationAllowed + 1;
      validation.Record(duration);
    }

    method RecordValidationDenied(duration: int)
      requires Valid()
      modifies this, validation, validation.ring
      ensures Valid() && validation.history == old(validation.history) + [duration]
      ensures validationDenied == old(validationDenied) + 1
      ensures unchanged(`validationAllowed, `validationWarned, `mutationTotal, `mutationApplied, `mutationSkipped)
    {
      hide Refines, Sum, RunningMax, RunningMin;
      validationTotal := validationTotal + 1;
      validationDenied := validationDenied + 1;
      validation.Record(duration);
    }

    method RecordValidationWarned(duration: int)
      requires Valid()
      modifies this, validation, validation.ring
      ensures Valid() && validation.history == old(validation.history) + [duration]
      ensures validationWarned == old(validationWarned) + 1
      ensures unchanged(`validationAllowed, `validationDenied, `mutationTotal, `mutationApplied, `mutationSkipped)
    {
      hide Refines, Sum, RunningMax, RunningMin;
      validationTotal := validationTotal + 1;
      validationWarned := validationWarned + 1;
      validation.Record(duration);
    }

    method RecordMutationApplied(duration: int)
      requires Valid()
      modifies this, mutation, mutation.ring
      ensures Valid() && mutation.history == old(mutation.history) + [duration]
      ensures mutationApplied == old(mutationApplied) + 1
      ensures unchanged(`validationTotal, `validationAllowed, `validationDenied, `validationWarned, `mutationSkipped)
    {
      hide Refines, Sum, RunningMax, RunningMin;
      mutationTotal := mutationTotal + 1;
      mutationApplied := mutationApplied + 1;
      mutation.Record(duration);
    }

    method RecordMutationSkipped(duration: int)
      requires Valid()
      modifies this, mutation, mutation.ring
      ensures Valid() && mutation.history == old(mutation.history) + [duration]
      ensures mutationSkipped == old(mutationSkipped) + 1
      ensures unchanged(`validationTotal, `validationAllowed, `validationDenied, `validationWarned, `mutationApplied)
    {
      hide Refines, Sum, RunningMax, RunningMin;
      mutationTotal := mutationTotal + 1;
      mutationSkipped := mutationSkipped + 1;
      mutation.Record(duration);
    }

    method GetStats(webhooksEnabled: bool) returns (snap: AdmissionSnapshot)
      requires Valid()
      ensures snap.validationTotal == |validation.history|
                == snap.validationAllowed + snap.validationDenied + snap.validationWarned
      ensures snap.mutationTotal == |mutation.history| == snap.mutationApplied + snap.mutationSkipped
      ensures snap.validationAllowed == validationAllowed && snap.validationDenied == validationDenied
      ensures snap.mutationApplied == mutationApplied && snap.webhooksEnabled == webhooksEnabled
      ensures (snap.valAvgLatencyMs, snap.valP95LatencyMs, snap.valMaxLatencyMs)
                == Shown(validation.history, validation.ring.Length)
      ensures (snap.mutAvgLatencyMs, snap.mutP95LatencyMs, snap.mutMaxLatencyMs)
                == Shown(mutation.history, mutation.ring.Length)
    {
      hide Refines, Sum, RunningMax, RunningMin, Percentile, Window, Quotient, MsFloat;
      var valAvg, valMax, mutAvg, mutMax := 0.0, 0.0, 0.0, 0.0;
      if validationTotal > 0 {
        var average := validation.Average(validationTotal);
        valAvg, valMax := MsFloat(average), MsFloat(validation.max);
      }
      var valP95 := validation.PercentileOf(95, 100);
      if mutationTotal > 0 {
        var average := mutation.Average(mutationTotal);
        mutAvg, mutMax := MsFloat(average), MsFloat(mutation.max);
      }
      var mutP95 := mutation.PercentileOf(95, 100);
      snap := AdmissionSnapshot(validationTotal, validationAllowed, validationDenied, validationWarned,
                                valAvg, MsFloat(valP95), valMax,
                                mutationTotal, mutationApplied, mutationSkipped,
                                mutAvg, MsFloat(mutP95), mutMax, webhooksEnabled);
    }
  }

  /** No snapshot shows an average or a percentile above its maximum, nor, where the minimum is the
      minimum (RunningMinIsMinimumIff), one below it. */
  lemma ShownIsOrdered(h: seq<int>, size: nat)
    requires size > 0
    ensures Shown(h, size).0 <= Shown(h, size).2 && Shown(h, size).1 <= Shown(h, size).2
    ensures h != [] && NonNegative(h) && IsMinimum(RunningMin(h), h) ==>
              MsFloat(RunningMin(h)) <= Shown(h, size).0 && MsFloat(RunningMin(h)) <= Shown(h, size).1
  {
    hide Sum, RunningMax, RunningMin, Percentile, Window, Quotient, MsFloat, IsMinimum, NonNegative;
    if h == [] {
      NothingShown(size);
    } else {
      ReportIsOrdered(h, size, 95, 100);
      MsFloatIsMonotone(Quotient(Sum(h), |h|), RunningMax(h));
      MsFloatIsMonotone(Percentile(Window(h, size), 95, 100), RunningMax(h));
      if NonNegative(h) && IsMinimum(RunningMin(h), h) {
        MsFloatIsMonotone(RunningMin(h), Quotient(Sum(h), |h|));
        MsFloatIsMonotone(RunningMin(h), Percentile(Window(h, size), 95, 100));
      }
    }
  }

  lemma NothingShown(size: nat)
    requires size > 0
    ensures Shown([], size).0 == Shown([], size).1 == Shown([], size).2
  {
    NoSamples(95, 100);
  }

  datatype ConversionSnapshot = ConversionSnapshot(
    totalRequests: nat, successRequests: nat, failedRequests: nat,
    avgLatency: int, p95Latency: int, maxLatency: int, minLatency: int)

  class ConversionStats {
    var totalRequests: nat
    var successRequests: nat
    var failedRequests: nat
    const latency: LatencyTrack

    /** Only successes have a sample. */
    ghost predicate Valid()
      reads this, latency, latency.ring
    {
      && latency.Valid()
      && totalRequests == successRequests + failedRequests && successRequests == |latency.history|
    }

    constructor (windowSize: int)
      ensures Valid() && fresh(latency) && fresh(latency.ring) && latency.history == [] && totalRequests == 0
      ensures latency.ring.Length == if windowSize <= 0 then 1000 else windowSize
    {
      hide Refines, Sum, RunningMax, RunningMin;
      totalRequests, successRequests, failedRequests := 0, 0, 0;
      latency := new LatencyTrack(if windowSize <= 0 then 1000 else windowSize);
    }

    method RecordSuccess(duration: int)
      requires Valid()
      modifies this, latency, latency.ring
      ensures Valid() && latency.history == old(latency.history) + [duration]
      ensures failedRequests == old(failedRequests)
    {
      hide Refines, Sum, RunningMax, RunningMin;
      totalRequests := totalRequests + 1;
      successRequests := successRequests + 1;
      latency.Record(duration);
    }

    method RecordFailure()
      requires Valid()
      modifies this
      ensures Valid() && failedRequests == old(failedRequests) + 1 && successRequests == old(successRequests)
    {
      hide Refines, Sum, RunningMax, RunningMin;
      totalRequests := totalRequests + 1;
      failedRequests := failedRequests + 1;
    }

    method GetStats() returns (snap: ConversionSnapshot)
      requires Valid()
      ensures snap.totalRequests == snap.successRequests + snap.failedRequests
      ensures snap.successRequests == |latency.history| && snap.failedRequests == failedRequests
      ensures snap.maxLatency == RunningMax(latency.history) && snap.minLatency == RunningMin(latency.history)
      ensures snap.avgLatency == if latency.history == [] then 0 else Quotient(Sum(latency.history), |latency.history|)
      ensures snap.p95Latency == Percentile(Window(latency.history, latency.ring.Length), 95, 100)
      ensures if latency.history == [] then snap.p95Latency == 0
              else AtFraction(snap.p95Latency, Window(latency.history, latency.ring.Length), 95, 100)
    {
      hide Refines, AtFraction, Percentile, Window, Sum, RunningMax, RunningMin;
      var average := 0;
      if successRequests > 0 {
        average := latency.Average(successRequests);
      }
      var p95 := latency.PercentileOf(95, 100);
      snap := ConversionSnapshot(totalRequests, successRequests, failedRequests, average, p95, latency.max,
          latency.min);
    }
  }
}
