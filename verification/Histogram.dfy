/** The latency histogram and its quantile estimate (src/util/Metrics.cpp, lines 71-92 and
    133-160), with latencies in milliseconds as reals and no update in flight when a
    quantile is taken. */
module Histograms {

  const FINITE: nat := 12
  const BUCKETS: nat := 13

  const BOUNDS: seq<real> :=
    [1.0, 2.0, 5.0, 10.0, 20.0, 50.0, 100.0, 200.0, 500.0, 1000.0, 2000.0, 5000.0]

  function Bound(i: nat): real
    requires i < FINITE
  {
    BOUNDS[i]
  }

  /** The closed range of a bucket; the last one is estimated as up to twice its bound. */
  function Lower(i: nat): real
    requires i < BUCKETS
  {
    if i == 0 then 0.0 else Bound(i - 1)
  }

  function Upper(i: nat): real
    requires i < BUCKETS
  {
    if i < FINITE then Bound(i) else Bound(FINITE - 1) * 2.0
  }

  // -------------------------------------------------------------- recording

  function Clamped(latency: real): real { if latency < 0.0 then 0.0 else latency }

  function BucketFrom(x: real, i: nat): (b: nat)
    requires i <= FINITE
    ensures i <= b <= FINITE
    ensures b < FINITE ==> x <= Bound(b)
    ensures forall j :: i <= j < b ==> Bound(j) < x
    decreases FINITE - i
  {
    if i == FINITE || x <= Bound(i) then i else BucketFrom(x, i + 1)
  }

  function BucketOf(x: real): (b: nat)
    ensures b < BUCKETS
  {
    BucketFrom(x, 0)
  }

  lemma BucketIsSlower(x: real, y: real)
    requires x <= y
    ensures BucketOf(x) <= BucketOf(y)
  {}

  /** How many of xs fall into a bucket before i. */
  function Before(xs: seq<real>, i: nat): (n: nat)
    ensures n <= |xs|
  {
    if xs == [] then 0 else (if BucketOf(xs[0]) < i then 1 else 0) + Before(xs[1..], i)
  }

  lemma {:induction false} BeforeGrows(xs: seq<real>, x: real, i: nat)
    ensures Before(xs + [x], i) == Before(xs, i) + if BucketOf(x) < i then 1 else 0
  {
    if xs == [] {
      assert xs + [x] == [x];
    } else {
      assert (xs + [x])[1..] == xs[1..] + [x];
      BeforeGrows(xs[1..], x, i);
    }
  }

  lemma {:induction false} BeforeEnds(xs: seq<real>)
    ensures Before(xs, 0) == 0 && Before(xs, BUCKETS) == |xs|
  {
    if xs != [] { BeforeEnds(xs[1..]); }
  }

  /** The counts are those of the recorded latencies. */
  predicate Counts(buckets: seq<nat>, xs: seq<real>) {
    |buckets| == BUCKETS && forall i :: 0 <= i < BUCKETS ==> buckets[i] == Before(xs, i + 1) - Before(xs, i)
  }

  function ClassCount(statuses: seq<int>, k: int): nat {
    if statuses == [] then 0
    else ClassCount(statuses[..|statuses| - 1], k) + if Class(statuses[|statuses| - 1]) == k then 1 else 0
  }

  predicate ClassCounts(classes: seq<nat>, statuses: seq<int>) {
    |classes| == 5 && forall k :: 0 <= k < 5 ==> classes[k] == ClassCount(statuses, k)
  }

  /** statusCode / 100 - 1, division truncating toward zero. */
  function Class(status: int): int {
    (if status >= 0 then status / 100 else -(-status / 100)) - 1
  }

  function SumMicros(xs: seq<real>): int {
    if xs == [] then 0 else SumMicros(xs[..|xs| - 1]) + (xs[|xs| - 1] * 1000.0).Floor
  }

  class Metrics {
    var requestsTotal: nat
    var latencyCount: nat
    var latencySumMicros: int
    const statusClasses: array<nat>
    const latencyBuckets: array<nat>
    ghost var statuses: seq<int>
    ghost var latencies: seq<real>

    ghost predicate Valid()
      reads this, statusClasses, latencyBuckets
    {
      && statusClasses.Length == 5 && latencyBuckets.Length == BUCKETS && statusClasses != latencyBuckets
      && Counts(latencyBuckets[..], latencies)
      && requestsTotal == latencyCount == |latencies| == |statuses|
      && latencySumMicros == SumMicros(latencies)
      && ClassCounts(statusClasses[..], statuses)
      && forall x :: x in latencies ==> x >= 0.0
    }

    constructor ()
      ensures Valid() && latencies == [] && statuses == []
      ensures fresh(statusClasses) && fresh(latencyBuckets)
    {
      requestsTotal, latencyCount, latencySumMicros := 0, 0, 0;
      statusClasses := new nat[5](_ => 0);
      latencyBuckets := new nat[BUCKETS](_ => 0);
      statuses, latencies := [], [];
    }

    method OnRequestFinished(status: int, latency: real)
      requires Valid()
      modifies this, statusClasses, latencyBuckets
      ensures Valid()
      ensures latencies == old(latencies) + [Clamped(latency)] && statuses == old(statuses) + [status]
    {
      hide Bound, BucketOf, SumMicros, Counts, ClassCounts, BucketFrom;
      ghost var counted, classes := latencyBuckets[..], statusClasses[..];
      requestsTotal := requestsTotal + 1;
      var k := Class(status);
      OneMoreStatus(classes, statuses, status);
      if 0 <= k < 5 {
        statusClasses[k] := statusClasses[k] + 1;
        assert statusClasses[..] == Bumped(classes, k);
      }
      statuses := statuses + [status];
      assert ClassCounts(statusClasses[..], statuses) && latencyBuckets[..] == counted;

      var x := if latency < 0.0 then 0.0 else latency;
      latencyCount := latencyCount + 1;
      latencySumMicros := latencySumMicros + (x * 1000.0).Floor;
      OneMoreSum(latencies, x);
      OneMoreCount(counted, latencies, x);
      latencies := latencies + [x];
      var i := CountLatency(x);
      assert latencyBuckets[..] == Bumped(counted, i);
    }

    /** The bucket loop of onRequestFinished. */
    method CountLatency(x: real) returns (i: nat)
      requires latencyBuckets.Length == BUCKETS
      modifies latencyBuckets
      ensures i == BucketOf(x) && latencyBuckets[..] == Bumped(old(latencyBuckets[..]), i)
    {
      hide Bound;
      i := 0;
      while i < FINITE
        invariant 0 <= i <= FINITE && latencyBuckets[..] == old(latencyBuckets[..])
        invariant BucketOf(x) == BucketFrom(x, i)
      {
        if x <= Bound(i) {
          latencyBuckets[i] := latencyBuckets[i] + 1;
          return;
        }
        i := i + 1;
      }
      latencyBuckets[FINITE] := latencyBuckets[FINITE] + 1;
    }
  }

  /** The class counters: a status is counted under its hundreds, when these are 1 to 5. */
  lemma ClassIsTheHundreds(status: int, k: int)
    requires 0 <= k < 5
    ensures Class(status) == k <==> 100 * (k + 1) <= status < 100 * (k + 2)
  {}

  function Sum(xs: seq<real>): real {
    if xs == [] then 0.0 else Sum(xs[..|xs| - 1]) + xs[|xs| - 1]
  }

  /** The sum of whole microseconds falls short of the true sum by less than one for each
      latency. */
  lemma {:induction false} SumIsAccurate(xs: seq<real>)
    ensures Sum(xs) * 1000.0 - |xs| as real <= SumMicros(xs) as real <= Sum(xs) * 1000.0
  {
    if xs != [] { SumIsAccurate(xs[..|xs| - 1]); }
  }

  lemma OneMoreStatus(classes: seq<nat>, statuses: seq<int>, status: int)
    requires ClassCounts(classes, statuses)
    ensures var k := Class(status);
      |classes| == 5 && ClassCounts(if 0 <= k < 5 then Bumped(classes, k) else classes, statuses + [status])
  {
    var all := statuses + [status];
    assert all[..|all| - 1] == statuses;
  }

  lemma OneMoreSum(xs: seq<real>, x: real)
    ensures SumMicros(xs + [x]) == SumMicros(xs) + (x * 1000.0).Floor
  {
    var all := xs + [x];
    assert all[..|all| - 1] == xs;
  }

  function Bumped(buckets: seq<nat>, i: nat): seq<nat>
    requires i < |buckets|
  {
    buckets[i := buckets[i] + 1]
  }

  lemma OneMoreCount(buckets: seq<nat>, xs: seq<real>, x: real)
    requires Counts(buckets, xs)
    ensures |buckets| == BUCKETS && Counts(Bumped(buckets, BucketOf(x)), xs + [x])
  {
    hide Before, BucketOf;
    forall i | 0 <= i < BUCKETS
      ensures Before(xs + [x], i + 1) - Before(xs + [x], i)
           == Before(xs, i + 1) - Before(xs, i) + if BucketOf(x) == i then 1 else 0
    {
      BeforeGrows(xs, x, i);
      BeforeGrows(xs, x, i + 1);
    }
  }

  // ------------------------------------------------------------ the estimate

  function Cumulative(buckets: seq<nat>, i: nat): nat
    requires i <= |buckets|
  {
    if i == 0 then 0 else Cumulative(buckets, i - 1) + buckets[i - 1]
  }

  lemma CumulativeStep(buckets: seq<nat>, i: nat)
    requires i < |buckets|
    ensures Cumulative(buckets, i + 1) == Cumulative(buckets, i) + buckets[i]
  {}

  predicate Reaches(buckets: seq<nat>, target: real, i: nat)
    requires i < |buckets|
  {
    Cumulative(buckets, i + 1) as real >= target
  }

  /** The first bucket from i on at which the cumulative count reaches the target. */
  function Reaching(buckets: seq<nat>, target: real, i: nat): (k: nat)
    requires i <= |buckets|
    ensures i <= k <= |buckets|
    ensures k < |buckets| ==> Reaches(buckets, target, k)
    ensures forall j :: i <= j < k ==> !Reaches(buckets, target, j)
    decreases |buckets| - i
  {
    if i == |buckets| || Reaches(buckets, target, i) then i
    else Reaching(buckets, target, i + 1)
  }

  function Ratio(buckets: seq<nat>, target: real, i: nat): real
    requires i < |buckets| && buckets[i] > 0
  {
    (target - Cumulative(buckets, i) as real) / buckets[i] as real
  }

  function Within(x: real): real { if x < 0.0 then 0.0 else if x > 1.0 then 1.0 else x }

  function Interpolate(i: nat, ratio: real): real
    requires i < BUCKETS
  {
    Lower(i) + (Upper(i) - Lower(i)) * Within(ratio)
  }

  function Estimate(buckets: seq<nat>, target: real, i: nat): real
    requires |buckets| == BUCKETS && i <= BUCKETS
  {
    if i == BUCKETS then Bound(FINITE - 1)
    else if buckets[i] == 0 then Upper(i)
    else Interpolate(i, Ratio(buckets, target, i))
  }

  function Target(n: nat, q: real): real { (if q > 1.0 then 1.0 else q) * n as real }

  /** quantileFromBuckets, every return of it. */
  function Quantile(buckets: seq<nat>, total: nat, q: real): real
    requires |buckets| == BUCKETS
  {
    if total == 0 || q <= 0.0 then 0.0
    else Estimate(buckets, Target(total, q), Reaching(buckets, Target(total, q), 0))
  }

  method QuantileFromBuckets(buckets: seq<nat>, total: nat, q: real) returns (r: real)
    requires |buckets| == BUCKETS
    ensures r == Quantile(buckets, total, q)
  {
    hide Bound, Cumulative, Reaching;
    if total == 0 || q <= 0.0 {
      return 0.0;
    }
    var p := q;
    if p > 1.0 {
      p := 1.0;
    }
    var target := p * total as real;
    assert target == Target(total, q);
    hide Target;
    var cumulative := 0;
    var i := 0;
    CumulativeStarts(buckets);
    while i < BUCKETS
      invariant 0 <= i <= BUCKETS && cumulative == Cumulative(buckets, i)
      invariant Reaching(buckets, target, 0) == Reaching(buckets, target, i)
    {
      CumulativeStep(buckets, i);
      ReachingStep(buckets, target, i);
      var before := cumulative;
      cumulative := cumulative + buckets[i];
      if cumulative as real >= target {
        var lower := if i == 0 then 0.0 else Bound(i - 1);
        var upper := if i < FINITE then Bound(i) else Bound(FINITE - 1) * 2.0;
        if buckets[i] == 0 {
          return upper;
        }
        var ratio := (target - before as real) / buckets[i] as real;
        return lower + (upper - lower) * Within(ratio);
      }
      i := i + 1;
    }
    return Bound(FINITE - 1);
  }

  lemma CumulativeStarts(buckets: seq<nat>)
    ensures Cumulative(buckets, 0) == 0
  {}

  lemma ReachingStep(buckets: seq<nat>, target: real, i: nat)
    requires i < |buckets|
    ensures Reaching(buckets, target, i) == if Reaches(buckets, target, i) then i else Reaching(buckets, target, i + 1)
  {}

  // --------------------------------------- the estimate against the latencies

  lemma {:induction false} CumulativeIsBefore(buckets: seq<nat>, xs: seq<real>, i: nat)
    requires Counts(buckets, xs) && i <= BUCKETS
    ensures Cumulative(buckets, i) == Before(xs, i)
  {
    if i == 0 {
      BeforeEnds(xs);
    } else {
      CumulativeIsBefore(buckets, xs, i - 1);
    }
  }

  /** The rank the quantile asks for: the target rounded up. */
  function Rank(n: nat, q: real): int { -(-Target(n, q)).Floor }

  lemma RankIsInRange(n: nat, q: real)
    requires n > 0 && q > 0.0
    ensures 0.0 < Target(n, q) <= n as real && 1 <= Rank(n, q) <= n
  {
    var p := if q > 1.0 then 1.0 else q;
    var m := n as real;
    ProductIsMonotone(m, p, 1.0);
    ProductIsPositive(p, m);
    assert 0.0 < p * m <= m;
    assert Target(n, q) == p * m;
    RankDecides(n, q, 0);
    RankDecides(n, q, n);
  }

  /** A whole number reaches the target exactly when it reaches the rank. */
  lemma RankDecides(n: nat, q: real, c: int)
    ensures c as real >= Target(n, q) <==> c >= Rank(n, q)
  {
    var x := Target(n, q);
    hide Target;
    assert c as real >= x <==> (-c) as real <= -x;
  }

  lemma ProductIsPositive(a: real, b: real)
    requires a > 0.0 && b > 0.0
    ensures a * b > 0.0
  {}

  lemma ProductIsMonotone(r: real, a: real, b: real)
    requires r >= 0.0 && a <= b
    ensures a * r <= b * r
  {
    assert r * (b - a) >= 0.0;
  }

  predicate Sorted(ys: seq<real>) { forall i, j :: 0 <= i <= j < |ys| ==> ys[i] <= ys[j] }

  /** In sorted order the latencies of the buckets before i come first. */
  lemma {:induction false} BeforeSplitsSorted(ys: seq<real>, i: nat, j: nat)
    requires Sorted(ys) && j < |ys|
    ensures BucketOf(ys[j]) < i <==> j < Before(ys, i)
  {
    BucketIsSlower(ys[0], ys[j]);
    if BucketOf(ys[0]) >= i {
      NoneBefore(ys, i);
    } else if j > 0 {
      BeforeSplitsSorted(ys[1..], i, j - 1);
    }
  }

  lemma {:induction false} NoneBefore(ys: seq<real>, i: nat)
    requires Sorted(ys) && ys != [] && BucketOf(ys[0]) >= i
    ensures Before(ys, i) == 0
  {
    if |ys| > 1 {
      BucketIsSlower(ys[0], ys[1]);
      NoneBefore(ys[1..], i);
    }
  }

  lemma {:induction false} BeforeOfJoin(a: seq<real>, b: seq<real>, i: nat)
    ensures Before(a + b, i) == Before(a, i) + Before(b, i)
  {
    if a == [] {
      assert a + b == b;
    } else {
      assert (a + b)[1..] == a[1..] + b;
      BeforeOfJoin(a[1..], b, i);
    }
  }

  lemma {:induction false} BeforeOfPermutation(xs: seq<real>, ys: seq<real>, i: nat)
    requires multiset(xs) == multiset(ys)
    ensures |xs| == |ys| && Before(xs, i) == Before(ys, i)
    decreases |xs|
  {
    hide BucketOf;
    assert |multiset(xs)| == |xs| && |multiset(ys)| == |ys|;
    if xs != [] {
      assert xs[0] in multiset(ys);
      var k :| 0 <= k < |ys| && ys[k] == xs[0];
      var rest := ys[..k] + ys[k + 1..];
      DropFirst(xs);
      DropOne(ys, k);
      BeforeOfPermutation(xs[1..], rest, i);
      assert ys == ys[..k] + [ys[k]] + ys[k + 1..];
      BeforeOfJoin(ys[..k] + [ys[k]], ys[k + 1..], i);
      BeforeOfJoin(ys[..k], [ys[k]], i);
      BeforeOfJoin(ys[..k], ys[k + 1..], i);
    }
  }

  lemma DropFirst(xs: seq<real>)
    requires xs != []
    ensures multiset(xs[1..]) == multiset(xs) - multiset{xs[0]}
  {
    assert xs == [xs[0]] + xs[1..];
  }

  lemma DropOne(ys: seq<real>, k: nat)
    requires k < |ys|
    ensures multiset(ys[..k] + ys[k + 1..]) == multiset(ys) - multiset{ys[k]}
  {
    assert ys == ys[..k] + [ys[k]] + ys[k + 1..];
  }

  /** The bucket found is the one in which the cumulative count passes the rank. */
  lemma HitPassesTheRank(buckets: seq<nat>, xs: seq<real>, q: real)
    requires Counts(buckets, xs) && xs != [] && q > 0.0
    ensures var i := Reaching(buckets, Target(|xs|, q), 0);
      i < BUCKETS && Cumulative(buckets, i) < Rank(|xs|, q) <= Cumulative(buckets, i + 1)
  {
    hide Counts, Cumulative, Rank, Target, Before;
    var target := Target(|xs|, q);
    var i := Reaching(buckets, target, 0);
    RankIsInRange(|xs|, q);
    CumulativeEnds(buckets, xs);
    RankDecides(|xs|, q, Cumulative(buckets, BUCKETS));
    assert Reaches(buckets, target, BUCKETS - 1);
    RankDecides(|xs|, q, Cumulative(buckets, i + 1));
    if i == 0 {
      CumulativeStarts(buckets);
    } else {
      assert !Reaches(buckets, target, i - 1);
      assert i - 1 + 1 == i;
      RankDecides(|xs|, q, Cumulative(buckets, i));
    }
  }

  lemma CumulativeEnds(buckets: seq<nat>, xs: seq<real>)
    requires Counts(buckets, xs)
    ensures |buckets| == BUCKETS && Cumulative(buckets, BUCKETS) == |xs|
  {
    CumulativeIsBefore(buckets, xs, BUCKETS);
    BeforeEnds(xs);
  }

  /** It is the bucket of the order statistic of that rank. */
  lemma HitIsTheOrderStatistic(buckets: seq<nat>, xs: seq<real>, ys: seq<real>, q: real)
    requires Counts(buckets, xs) && Sorted(ys) && multiset(ys) == multiset(xs) && xs != [] && q > 0.0
    ensures var k := Rank(|xs|, q);
      |ys| == |xs| && 1 <= k <= |ys| && Reaching(buckets, Target(|xs|, q), 0) == BucketOf(ys[k - 1])
  {
    hide Sorted, Before, Cumulative, Rank, Target, BucketOf, Reaching;
    var k := Rank(|xs|, q);
    RankIsInRange(|xs|, q);
    HitPassesTheRank(buckets, xs, q);
    var i := Reaching(buckets, Target(|xs|, q), 0);
    CumulativeIsBefore(buckets, xs, i);
    CumulativeIsBefore(buckets, xs, i + 1);
    BeforeOfPermutation(xs, ys, i);
    BeforeOfPermutation(xs, ys, i + 1);
    BeforeSplitsSorted(ys, i, k - 1);
    BeforeSplitsSorted(ys, i + 1, k - 1);
  }

  lemma HitIsFull(buckets: seq<nat>, xs: seq<real>, q: real)
    requires Counts(buckets, xs) && xs != [] && q > 0.0
    ensures var i := Reaching(buckets, Target(|xs|, q), 0);
      i < BUCKETS && buckets[i] > 0 && 0.0 < Ratio(buckets, Target(|xs|, q), i) <= 1.0
  {
    hide Cumulative, Target, Reaching, Counts;
    HitPassesTheRank(buckets, xs, q);
    CumulativeEnds(buckets, xs);
    var target := Target(|xs|, q);
    var i := Reaching(buckets, target, 0);
    CumulativeStep(buckets, i);
    RankDecides(|xs|, q, Cumulative(buckets, i));
    FractionIsProper(target - Cumulative(buckets, i) as real, buckets[i] as real);
  }

  lemma FractionIsProper(a: real, b: real)
    requires 0.0 < a <= b
    ensures 0.0 < a / b <= 1.0
  {}

  /** THE ESTIMATE BRACKETS THE ORDER STATISTIC. For recorded latencies xs and their sorted
      order ys, the estimate lies in the range of the bucket that the latency of rank
      ceil(q * n) fell into; neither the empty-bucket return nor the one after the loop is
      ever taken. */
  lemma QuantileBrackets(buckets: seq<nat>, xs: seq<real>, ys: seq<real>, q: real)
    requires Counts(buckets, xs) && Sorted(ys) && multiset(ys) == multiset(xs) && xs != [] && q > 0.0
    ensures var i := Reaching(buckets, Target(|xs|, q), 0); i < BUCKETS && buckets[i] > 0
    ensures var k := Rank(|xs|, q);
      && |ys| == |xs| && 1 <= k <= |ys|
      && Lower(BucketOf(ys[k - 1])) < Quantile(buckets, |xs|, q) <= Upper(BucketOf(ys[k - 1]))
  {
    hide Counts, Sorted, Rank, Target, Reaching, Ratio, Interpolate, Lower, Upper, BucketOf;
    CumulativeEnds(buckets, xs);
    HitIsTheOrderStatistic(buckets, xs, ys, q);
    HitIsFull(buckets, xs, q);
    var i := Reaching(buckets, Target(|xs|, q), 0);
    Interpolated(i, Ratio(buckets, Target(|xs|, q), i));
  }

  lemma Interpolated(i: nat, ratio: real)
    requires i < BUCKETS && 0.0 < ratio <= 1.0
    ensures Lower(i) < Interpolate(i, ratio) <= Upper(i)
  {
    var width := Upper(i) - Lower(i);
    assert width > 0.0;
    assert width * ratio > 0.0;
    ProductIsMonotone(width, ratio, 1.0);
  }

  /** LINEAR INTERPOLATION. Inside its bucket the estimate divides the range as the target
      divides the latencies of the bucket: with `below` latencies in earlier buckets and
      `inside` in this one, the target below + inside * x is estimated as lower + width * x. */
  lemma QuantileIsInterpolated(buckets: seq<nat>, xs: seq<real>, ys: seq<real>, q: real)
    requires Counts(buckets, xs) && Sorted(ys) && multiset(ys) == multiset(xs) && xs != [] && 0.0 < q <= 1.0
    ensures var k := Rank(|xs|, q);
      && |ys| == |xs| && 1 <= k <= |ys|
      && var i := BucketOf(ys[k - 1]);
      var below, inside := Before(xs, i), Before(xs, i + 1) - Before(xs, i);
      && inside > 0
      && (Quantile(buckets, |xs|, q) - Lower(i)) * inside as real
         == (Upper(i) - Lower(i)) * (q * |xs| as real - below as real)
  {
    hide Before, Cumulative, Reaching, Rank, Sorted, BucketOf, Lower, Upper, Counts, Target, Quantile, Ratio;
    CumulativeEnds(buckets, xs);
    HitIsTheOrderStatistic(buckets, xs, ys, q);
    HitIsFull(buckets, xs, q);
    var target := Target(|xs|, q);
    var i := Reaching(buckets, target, 0);
    CumulativeIsBefore(buckets, xs, i);
    CountsAt(buckets, xs, i);
    TargetIs(|xs|, q);
    HitIsInterpolated(buckets, |xs|, q);
    LinearAt(buckets, target, i);
  }

  lemma HitIsInterpolated(buckets: seq<nat>, total: nat, q: real)
    requires |buckets| == BUCKETS && total > 0 && q > 0.0
    requires var i := Reaching(buckets, Target(total, q), 0); i < BUCKETS && buckets[i] > 0
    ensures var i := Reaching(buckets, Target(total, q), 0);
      Quantile(buckets, total, q) == Interpolate(i, Ratio(buckets, Target(total, q), i))
  {
    hide Reaching, Target, Ratio, Interpolate;
  }

  lemma LinearAt(buckets: seq<nat>, target: real, i: nat)
    requires |buckets| == BUCKETS && i < BUCKETS && buckets[i] > 0 && 0.0 < Ratio(buckets, target, i) <= 1.0
    ensures (Interpolate(i, Ratio(buckets, target, i)) - Lower(i)) * buckets[i] as real
         == (Upper(i) - Lower(i)) * (target - Cumulative(buckets, i) as real)
  {
    hide Cumulative, Interpolate, Lower, Upper;
    InterpolationIsLinear(i, target - Cumulative(buckets, i) as real, buckets[i] as real, Ratio(buckets, target, i));
  }

  lemma TargetIs(n: nat, q: real)
    requires q <= 1.0
    ensures Target(n, q) == q * n as real
  {}

  lemma CountsAt(buckets: seq<nat>, xs: seq<real>, i: nat)
    requires Counts(buckets, xs) && i < BUCKETS
    ensures |buckets| == BUCKETS && buckets[i] == Before(xs, i + 1) - Before(xs, i)
  {}

  lemma InterpolationIsLinear(i: nat, a: real, b: real, ratio: real)
    requires i < BUCKETS && b > 0.0 && ratio == a / b && 0.0 < ratio <= 1.0
    ensures (Interpolate(i, ratio) - Lower(i)) * b == (Upper(i) - Lower(i)) * a
  {
    hide Lower, Upper;
    var width := Upper(i) - Lower(i);
    assert ratio * b == a;
    assert (width * ratio) * b == width * (ratio * b);
  }

  /** Between 1 ms and 5 s the estimate is within a factor of 2.5 of the true value. */
  lemma QuantileIsWithinFactor(buckets: seq<nat>, xs: seq<real>, ys: seq<real>, q: real)
    requires Counts(buckets, xs) && Sorted(ys) && multiset(ys) == multiset(xs) && xs != [] && q > 0.0
    ensures var k := Rank(|xs|, q);
      1 <= k <= |ys| && (1.0 < ys[k - 1] <= 5000.0 ==>
        var e := Quantile(buckets, |xs|, q); e <= 2.5 * ys[k - 1] && ys[k - 1] <= 2.5 * e)
  {
    QuantileBrackets(buckets, xs, ys, q);
    BoundsAreDense(BucketOf(ys[Rank(|xs|, q) - 1]));
  }

  lemma BoundsAreDense(i: nat)
    requires i < BUCKETS
    ensures 1 <= i < FINITE ==> Upper(i) <= 2.5 * Lower(i)
    ensures i < FINITE ==> 0.0 <= Lower(i) < Upper(i) <= 5000.0
    ensures i == FINITE ==> Lower(i) == 5000.0 && Upper(i) == 10000.0
  {}

  /** The bounds are 1, 2 and 5 ms in every decade. */
  lemma BoundsAreOneTwoFive(i: nat)
    ensures Upper(0) == 1.0 && Upper(1) == 2.0 && Upper(2) == 5.0
    ensures i + 3 < FINITE ==> Upper(i + 3) == 10.0 * Upper(i)
  {}

  lemma BoundsGrow(i: nat, j: nat)
    requires i < j < BUCKETS
    ensures Upper(i) <= Lower(j)
  {}

  lemma {:induction false} ReachingGrows(buckets: seq<nat>, t1: real, t2: real, i: nat)
    requires i <= |buckets| && t1 <= t2
    ensures Reaching(buckets, t1, i) <= Reaching(buckets, t2, i)
    decreases |buckets| - i
  {
    if i < |buckets| && !Reaches(buckets, t1, i) {
      ReachingGrows(buckets, t1, t2, i + 1);
    }
  }

  /** The estimate is monotone in q and stays between 0 and 10000, for every q. */
  lemma QuantileIsMonotone(buckets: seq<nat>, xs: seq<real>, q1: real, q2: real)
    requires Counts(buckets, xs) && q1 <= q2
    ensures 0.0 <= Quantile(buckets, |xs|, q1) <= Quantile(buckets, |xs|, q2) <= 10000.0
  {
    hide Counts, Target, Reaching, Ratio, Interpolate, Lower, Upper;
    CumulativeEnds(buckets, xs);
    if xs != [] && q2 > 0.0 {
      var t2 := Target(|xs|, q2);
      var j := Reaching(buckets, t2, 0);
      HitIsFull(buckets, xs, q2);
      Interpolated(j, Ratio(buckets, t2, j));
      BoundsAreDense(j);
      if q1 > 0.0 {
        var t1 := Target(|xs|, q1);
        var i := Reaching(buckets, t1, 0);
        HitIsFull(buckets, xs, q1);
        Interpolated(i, Ratio(buckets, t1, i));
        BoundsAreDense(i);
        TargetGrows(|xs|, q1, q2);
        ReachingGrows(buckets, t1, t2, 0);
        if i < j {
          BoundsGrow(i, j);
        } else {
          SameBucket(buckets, t1, t2, i);
        }
      }
    }
  }

  lemma TargetGrows(n: nat, q1: real, q2: real)
    requires q1 <= q2
    ensures Target(n, q1) <= Target(n, q2)
  {
    ProductIsMonotone(n as real, if q1 > 1.0 then 1.0 else q1, if q2 > 1.0 then 1.0 else q2);
  }

  lemma SameBucket(buckets: seq<nat>, t1: real, t2: real, i: nat)
    requires i < |buckets| == BUCKETS && buckets[i] > 0 && t1 <= t2
    ensures Interpolate(i, Ratio(buckets, t1, i)) <= Interpolate(i, Ratio(buckets, t2, i))
  {
    var c, b := Cumulative(buckets, i) as real, buckets[i] as real;
    QuotientIsMonotone(t1 - c, t2 - c, b);
    ProductIsMonotone(Upper(i) - Lower(i), Within(Ratio(buckets, t1, i)), Within(Ratio(buckets, t2, i)));
  }

  lemma QuotientIsMonotone(x: real, y: real, b: real)
    requires x <= y && b > 0.0
    ensures x / b <= y / b
  {
    ProductIsMonotone(1.0 / b, x, y);
    assert x / b == x * (1.0 / b) && y / b == y * (1.0 / b);
  }
}
