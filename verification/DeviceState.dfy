/** Round-trip windows and the online/standby classification: classify, atMedian and atMovingAvg in
    internal/whatsapp/activitytracker.go, over the reals. */
module DeviceState {
  import opened Common

  datatype DeviceState = Online | Standby | Offline

  // ---------------------------------------------------------------- sort.Float64s

  function Insert(x: real, s: seq<real>): seq<real> {
    if s == [] || x <= s[0] then [x] + s else [s[0]] + Insert(x, s[1..])
  }

  /** The sorted copy of a sample. */
  function Sort(s: seq<real>): seq<real> {
    if s == [] then [] else Insert(s[0], Sort(s[1..]))
  }

  ghost predicate IsSorted(s: seq<real>) {
    forall i, j :: 0 <= i < j < |s| ==> s[i] <= s[j]
  }

  lemma {:induction false} InsertAdds(x: real, s: seq<real>)
    ensures multiset(Insert(x, s)) == multiset(s) + multiset{x}
  {
    if s != [] && x > s[0] {
      InsertAdds(x, s[1..]);
      assert s == [s[0]] + s[1..];
    }
  }

  ghost predicate AtLeast(s: seq<real>, low: real) {
    forall i :: 0 <= i < |s| ==> low <= s[i]
  }

  lemma {:induction false} InsertAtLeast(x: real, s: seq<real>, low: real)
    requires low <= x && AtLeast(s, low)
    ensures AtLeast(Insert(x, s), low)
  {
    if s != [] && x > s[0] {
      InsertAtLeast(x, s[1..], low);
    }
  }

  lemma {:induction false} InsertKeepsSorted(x: real, s: seq<real>)
    requires IsSorted(s)
    ensures IsSorted(Insert(x, s))
  {
    if s != [] && x > s[0] {
      InsertKeepsSorted(x, s[1..]);
      InsertAtLeast(x, s[1..], s[0]);
    }
  }

  lemma {:induction false} SortSorts(s: seq<real>)
    ensures IsSorted(Sort(s)) && multiset(Sort(s)) == multiset(s) && |Sort(s)| == |s|
  {
    if s != [] {
      SortSorts(s[1..]);
      InsertKeepsSorted(s[0], Sort(s[1..]));
      InsertAdds(s[0], Sort(s[1..]));
      assert s == [s[0]] + s[1..];
      assert |multiset(Sort(s))| == |multiset(s)|;
    }
  }

  lemma HeadIsLeast(s: seq<real>, v: real)
    requires IsSorted(s) && v in multiset(s)
    ensures s != [] && s[0] <= v
  {
    assert v in s;
  }

  lemma TailOf(s: seq<real>)
    requires s != []
    ensures multiset(s[1..]) == multiset(s) - multiset{s[0]} && s == [s[0]] + s[1..]
  {
    assert s == [s[0]] + s[1..];
  }

  lemma SameHead(s: seq<real>, t: seq<real>)
    requires IsSorted(s) && IsSorted(t) && multiset(s) == multiset(t) && s != []
    ensures t != [] && s[0] == t[0]
  {
    assert s[0] in multiset(s);
    HeadIsLeast(t, s[0]);
    assert t[0] in multiset(t);
    HeadIsLeast(s, t[0]);
  }

  lemma {:induction false} SortedUnique(s: seq<real>, t: seq<real>)
    requires IsSorted(s) && IsSorted(t) && multiset(s) == multiset(t)
    ensures s == t
  {
    if s == [] {
      assert |multiset(t)| == 0;
    } else {
      SameHead(s, t);
      TailOf(s);
      TailOf(t);
      SortedUnique(s[1..], t[1..]);
    }
  }

  // ---------------------------------------------------------------- median and average

  function Mid(a: real, b: real): real { (a + b) / 2.0 }
  function Quotient(a: real, n: nat): real
    requires n > 0
  {
    a / (n as real)
  }

  function MiddleOf(sorted: seq<real>): real {
    var mid := |sorted| / 2;
    if sorted == [] then 0.0
    else if |sorted| % 2 == 0 then Mid(sorted[mid - 1], sorted[mid])
    else sorted[mid]
  }

  function Median(samples: seq<real>): real {
    MiddleOf(Sort(samples))
  }

  function Plus(a: real, b: real): real { a + b }

  function Sum(s: seq<real>): real {
    if s == [] then 0.0 else Plus(Sum(s[..|s| - 1]), s[|s| - 1])
  }

  function Average(s: seq<real>): real {
    if s == [] then 0.0 else Quotient(Sum(s), |s|)
  }

  method AtMedian(samples: seq<real>) returns (median: real)
    ensures median == Median(samples)
  {
    if |samples| == 0 {
      return 0.0;
    }
    var sorted := Sort(samples);
    SortSorts(samples);
    var mid := |sorted| / 2;
    if |sorted| % 2 == 0 {
      return (sorted[mid - 1] + sorted[mid]) / 2.0;
    }
    return sorted[mid];
  }

  method AtMovingAvg(samples: seq<real>) returns (average: real)
    ensures average == Average(samples)
  {
    if |samples| == 0 {
      return 0.0;
    }
    var sum := 0.0;
    for i := 0 to |samples|
      invariant sum == Sum(samples[..i])
    {
      assert samples[..i + 1][..i] == samples[..i];
      sum := sum + samples[i];
    }
    assert samples[..|samples|] == samples;
    return sum / (|samples| as real);
  }

  /** The median does not depend on the order the samples came in. */
  lemma MedianOfPermutation(s: seq<real>, t: seq<real>)
    requires multiset(s) == multiset(t)
    ensures Median(s) == Median(t)
  {
    SortSorts(s);
    SortSorts(t);
    SortedUnique(Sort(s), Sort(t));
    assert |multiset(s)| == |multiset(t)|;
  }

  /** The median is half the sum of the one or two middle values of the samples in order. */
  lemma MedianIsMiddle(samples: seq<real>, ordered: seq<real>)
    requires samples != [] && IsSorted(ordered) && multiset(ordered) == multiset(samples)
    ensures |ordered| == |samples|
    ensures Median(samples) == (ordered[(|samples| - 1) / 2] + ordered[|samples| / 2]) / 2.0
  {
    SortSorts(samples);
    SortedUnique(Sort(samples), ordered);
  }

  function Count(s: seq<real>, p: real -> bool): nat {
    if s == [] then 0 else (if p(s[0]) then 1 else 0) + Count(s[1..], p)
  }

  lemma {:induction false} CountInsert(x: real, s: seq<real>, p: real -> bool)
    ensures Count(Insert(x, s), p) == Count(s, p) + (if p(x) then 1 else 0)
  {
    if s != [] && x > s[0] {
      CountInsert(x, s[1..], p);
      assert Insert(x, s)[1..] == Insert(x, s[1..]);
    } else {
      assert ([x] + s)[1..] == s;
    }
  }

  lemma {:induction false} CountSort(s: seq<real>, p: real -> bool)
    ensures Count(Sort(s), p) == Count(s, p)
  {
    if s != [] {
      CountSort(s[1..], p);
      CountInsert(s[0], Sort(s[1..]), p);
    }
  }

  lemma {:induction false} CountRange(s: seq<real>, from: nat, to: nat, p: real -> bool)
    requires from <= to <= |s| && forall i :: from <= i < to ==> p(s[i])
    ensures Count(s, p) >= to - from
  {
    if s != [] && to > 0 {
      CountRange(s[1..], if from > 0 then from - 1 else 0, to - 1, p);
    }
  }

  lemma MiddleSplits(t: seq<real>)
    requires t != [] && IsSorted(t)
    ensures forall i :: 0 <= i < (|t| + 1) / 2 ==> t[i] <= MiddleOf(t)
    ensures forall i :: |t| / 2 <= i < |t| ==> t[i] >= MiddleOf(t)
  {
    var mid := |t| / 2;
    if |t| % 2 == 0 {
      assert t[mid - 1] <= MiddleOf(t) <= t[mid];
    }
  }

  /** At least half of the samples are at most the median, and at least half are at least it. */
  lemma MedianHalves(samples: seq<real>, atMost: real -> bool, atLeast: real -> bool)
    requires forall x :: atMost(x) <==> x <= Median(samples)
    requires forall x :: atLeast(x) <==> x >= Median(samples)
    ensures 2 * Count(samples, atMost) >= |samples| && 2 * Count(samples, atLeast) >= |samples|
  {
    if samples != [] {
      var sorted, n := Sort(samples), |samples|;
      SortSorts(samples);
      MiddleSplits(sorted);
      CountSort(samples, atMost);
      CountSort(samples, atLeast);
      CountRange(sorted, 0, (n + 1) / 2, atMost);
      CountRange(sorted, n / 2, n, atLeast);
    }
  }

  // ---------------------------------------------------------------- the classification

  const WINDOW: nat := 3
  const SAMPLES: nat := 2000
  const MIN_SAMPLES: nat := 5
  const RATIO: real := 0.90

  function Threshold(median: real): real { median * RATIO }

  /** The state after a history of round-trip times ending in the latest one. */
  function StateFor(history: seq<real>): DeviceState {
    var baseline := Last(history, SAMPLES);
    if |baseline| < MIN_SAMPLES then Online
    else if Average(Last(history, WINDOW)) < Threshold(Median(baseline)) then Online
    else Standby
  }

  /** With five times or more the device is online exactly when its last three times add up to less than
      27/10 of the median of the last 2000: when their average is below 9/10 of it. */
  lemma StateMeaning(history: seq<real>)
    ensures |history| < 5 ==> StateFor(history) == Online
    ensures |history| >= 5 ==>
              var n, median := |history|, Median(Last(history, 2000));
              StateFor(history)
              == if 10.0 * (history[n - 3] + history[n - 2] + history[n - 1]) < 27.0 * median then Online else Standby
  {
    var n := |history|;
    if n >= 5 {
      SumOfThree(history[n - 3..]);
    }
  }

  lemma SumOfThree(s: seq<real>)
    requires |s| == 3
    ensures Sum(s) == s[0] + s[1] + s[2]
  {
    assert s[..2][..1] == s[..1] && s[..1][..0] == [];
    assert Sum(s[..1]) == s[0] && Sum(s[..2]) == s[0] + s[1];
  }

  ghost predicate LastThreeBelow(h: seq<real>, bound: real) {
    forall i :: 0 <= i < |h| && |h| - 3 <= i ==> 10.0 * h[i] < 9.0 * bound
  }

  ghost predicate LastThreeAtLeast(h: seq<real>, bound: real) {
    forall i :: 0 <= i < |h| && |h| - 3 <= i ==> 10.0 * h[i] >= 9.0 * bound
  }

  /** Three times below 9/10 of the median mean Online, three that are not mean Standby, and faster
      answers against the same median never turn Online into Standby. */
  lemma FasterIsOnline(h: seq<real>, faster: seq<real>)
    requires |h| >= 5 && |faster| >= 5 && Median(Last(h, 2000)) == Median(Last(faster, 2000))
    requires var m, n := |faster|, |h|; faster[m - 1] <= h[n - 1] && faster[m - 2] <= h[n - 2] && faster[m - 3] <= h[n - 3]
    ensures LastThreeBelow(h, Median(Last(h, 2000))) ==> StateFor(h) == Online
    ensures LastThreeAtLeast(h, Median(Last(h, 2000))) ==> StateFor(h) == Standby
    ensures StateFor(h) == Online ==> StateFor(faster) == Online
  {
    StateMeaning(h);
    StateMeaning(faster);
  }

  class Tracker {
    var recentRTTs: seq<real>
    var globalRTTs: seq<real>
    var currentState: DeviceState
    ghost var history: seq<real>  // every round-trip time classified so far

    /** The windows are exactly the last 2000 and the last 3 times. */
    ghost predicate Valid()
      reads this
    {
      globalRTTs == Last(history, 2000) && recentRTTs == Last(history, 3)
    }

    constructor ()
      ensures Valid() && history == [] && currentState == Offline
    {
      recentRTTs, globalRTTs, currentState, history := [], [], Offline, [];
    }

    method Classify(rttMs: real) returns (state: DeviceState)
      requires Valid()
      modifies this`recentRTTs, this`globalRTTs, this`history
      ensures Valid() && history == old(history) + [rttMs]
      ensures state == StateFor(history)
    {
      LastAppend(history, rttMs, SAMPLES);
      LastAppend(history, rttMs, WINDOW);
      if |globalRTTs| >= SAMPLES {
        globalRTTs := globalRTTs[1..];
      }
      globalRTTs := globalRTTs + [rttMs];
      if |recentRTTs| >= WINDOW {
        recentRTTs := recentRTTs[1..];
      }
      recentRTTs := recentRTTs + [rttMs];
      history := history + [rttMs];
      if |globalRTTs| < MIN_SAMPLES {
        return Online;
      }
      var median := AtMedian(globalRTTs);
      var threshold := median * RATIO;
      var avg := AtMovingAvg(recentRTTs);
      if avg < threshold {
        return Online;
      }
      return Standby;
    }

    /** The end of a probe: a receipt's round-trip time, or a timeout (None), which leaves both
        windows as they were. The median and threshold are what is persisted with the state. */
    method EndProbe(rtt: Option<real>) returns (median: real, threshold: real)
      requires Valid()
      modifies this
      ensures Valid() && history == old(history) + (match rtt case Some(ms) => [ms] case None => [])
      ensures currentState == match rtt case Some(_) => StateFor(history) case None => Offline
      ensures median == Median(Last(history, 2000)) && threshold == median * 0.9
      ensures history == [] ==> median == 0.0
      ensures rtt.Some? && |history| < 5 ==> currentState == Online
      ensures rtt.Some? && |history| >= 5 ==>
                var n := |history|;
                && (currentState == Online <==> 10.0 * (history[n - 3] + history[n - 2] + history[n - 1]) < 27.0 * median)
                && (currentState == Standby <==> 10.0 * (history[n - 3] + history[n - 2] + history[n - 1]) >= 27.0 * median)
    {
      var state := Offline;
      match rtt {
        case Some(ms) => state := Classify(ms);
        case None =>
      }
      currentState := state;
      StateMeaning(history);
      median := AtMedian(globalRTTs);
      threshold := median * RATIO;
    }
  }

  // ---------------------------------------------------------------- units do not matter

  function Map(s: seq<real>, f: real -> real): seq<real> {
    seq(|s|, i requires 0 <= i < |s| => f(s[i]))
  }

  ghost predicate Increasing(f: real -> real) {
    forall a, b :: a <= b <==> f(a) <= f(b)
  }

  ghost predicate Linear(f: real -> real) {
    f(0.0) == 0.0 && forall a, b :: f(Mid(a, b)) == Mid(f(a), f(b)) && f(Plus(a, b)) == Plus(f(a), f(b))
  }

  ghost predicate KeepsQuotients(f: real -> real) {
    forall a, n: nat | n > 0 :: f(Quotient(a, n)) == Quotient(f(a), n)
  }

  ghost predicate KeepsThresholds(f: real -> real) {
    forall a :: f(Threshold(a)) == Threshold(f(a))
  }

  /** `f` commutes with what the classification computes. */
  ghost predicate Homogeneous(f: real -> real) {
    Increasing(f) && Linear(f) && KeepsQuotients(f) && KeepsThresholds(f)
  }

  lemma ScaleOrder(k: real, a: real, b: real)
    requires k > 0.0
    ensures a <= b <==> k * a <= k * b
  {
    if a > b {
      assert k * (a - b) > 0.0;
    } else {
      assert k * (b - a) >= 0.0;
    }
  }

  lemma QuotientScaled(k: real, a: real, n: nat)
    requires n > 0
    ensures k * Quotient(a, n) == Quotient(k * a, n)
  {
    var q, m := Quotient(a, n), n as real;
    assert q * m == a;
    assert (k * q) * m == k * (q * m);
  }

  lemma MidScaled(k: real, a: real, b: real)
    ensures k * Mid(a, b) == Mid(k * a, k * b) && k * Plus(a, b) == Plus(k * a, k * b)
  {
    assert k * (a + b) == k * a + k * b;
  }

  lemma ThresholdScaled(k: real, a: real)
    ensures k * Threshold(a) == Threshold(k * a)
  {
  }

  ghost predicate IsScaling(f: real -> real, k: real) {
    k > 0.0 && forall x :: f(x) == k * x
  }

  lemma ScalingIncreases(f: real -> real, k: real)
    requires IsScaling(f, k)
    ensures Increasing(f)
  {
    forall a, b ensures a <= b <==> f(a) <= f(b) {
      ScaleOrder(k, a, b);
    }
  }

  lemma ScalingIsLinear(f: real -> real, k: real)
    requires IsScaling(f, k)
    ensures Linear(f)
  {
    forall a, b ensures f(Mid(a, b)) == Mid(f(a), f(b)) && f(Plus(a, b)) == Plus(f(a), f(b)) {
      MidScaled(k, a, b);
    }
  }

  lemma ScalingKeepsQuotients(f: real -> real, k: real)
    requires IsScaling(f, k)
    ensures KeepsQuotients(f)
  {
    forall a, n: nat | n > 0 ensures f(Quotient(a, n)) == Quotient(f(a), n) {
      QuotientScaled(k, a, n);
      assert f(Quotient(a, n)) == k * Quotient(a, n) && f(a) == k * a;
    }
  }

  lemma ScalingKeepsThresholds(f: real -> real, k: real)
    requires IsScaling(f, k)
    ensures KeepsThresholds(f)
  {
    forall a ensures f(Threshold(a)) == Threshold(f(a)) {
      ThresholdScaled(k, a);
    }
  }

  lemma {:induction false} InsertMapped(x: real, s: seq<real>, f: real -> real)
    requires Increasing(f)
    ensures Insert(f(x), Map(s, f)) == Map(Insert(x, s), f)
  {
    if s != [] {
      assert x <= s[0] <==> f(x) <= f(s[0]);
      if x > s[0] {
        InsertMapped(x, s[1..], f);
        assert Map(s, f)[1..] == Map(s[1..], f);
      }
    }
  }

  lemma {:induction false} SortMapped(s: seq<real>, f: real -> real)
    requires Increasing(f)
    ensures Sort(Map(s, f)) == Map(Sort(s), f)
  {
    if s != [] {
      SortMapped(s[1..], f);
      assert Map(s, f)[1..] == Map(s[1..], f);
      InsertMapped(s[0], Sort(s[1..]), f);
    }
  }

  lemma {:induction false} SumMapped(s: seq<real>, f: real -> real)
    requires Homogeneous(f)
    ensures Sum(Map(s, f)) == f(Sum(s))
  {
    if s != [] {
      var n := |s| - 1;
      SumMapped(s[..n], f);
      assert Map(s, f)[..n] == Map(s[..n], f);
    }
  }

  lemma MiddleMapped(t: seq<real>, f: real -> real)
    requires Homogeneous(f)
    ensures MiddleOf(Map(t, f)) == f(MiddleOf(t))
  {
  }

  lemma LastMapped(s: seq<real>, f: real -> real, n: nat)
    ensures Last(Map(s, f), n) == Map(Last(s, n), f)
  {
  }

  /** Measuring every round trip in other units, or uniformly slower, does not change the state. */
  lemma StateScaleInvariant(history: seq<real>, f: real -> real, k: real)
    requires IsScaling(f, k)
    ensures StateFor(Map(history, f)) == StateFor(history)
  {
    ScalingIncreases(f, k);
    ScalingIsLinear(f, k);
    ScalingKeepsQuotients(f, k);
    ScalingKeepsThresholds(f, k);
    HomogeneousKeepsState(history, f);
  }

  lemma HomogeneousKeepsState(history: seq<real>, f: real -> real)
    requires Homogeneous(f)
    ensures StateFor(Map(history, f)) == StateFor(history)
  {
    LastMapped(history, f, SAMPLES);
    LastMapped(history, f, WINDOW);
    ThresholdMapped(Last(history, SAMPLES), f);
    AverageMapped(Last(history, WINDOW), f);
  }

  lemma ThresholdMapped(baseline: seq<real>, f: real -> real)
    requires Homogeneous(f)
    ensures Threshold(Median(Map(baseline, f))) == f(Threshold(Median(baseline)))
  {
    SortMapped(baseline, f);
    MiddleMapped(Sort(baseline), f);
  }

  lemma AverageMapped(recent: seq<real>, f: real -> real)
    requires Homogeneous(f)
    ensures Average(Map(recent, f)) == f(Average(recent))
  {
    SumMapped(recent, f);
  }
}
