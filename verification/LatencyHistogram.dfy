/** The bucket histogram, against the order statistics of the observations. */
module LatencyHistogram {
  const BOUNDS: seq<int> := [1, 5, 10, 25, 50, 100, 250, 500, 1000, 2500, 5000, 10000]
  const BUCKETS: nat := 13

  /** The bound a bucket reports; the last bucket is capped. */
  function BoundOf(bucket: nat): int
    requires bucket < BUCKETS
  {
    if bucket < |BOUNDS| then BOUNDS[bucket] else BOUNDS[|BOUNDS| - 1]
  }

  lemma BoundsRise(i: nat, j: nat)
    requires i <= j < BUCKETS
    ensures 1 <= BoundOf(i) <= BoundOf(j) <= 10000
  {
  }

  predicate Fits(ms: int, bucket: nat) {
    bucket < |BOUNDS| ==> (if ms < 0 then 0 else ms) <= BOUNDS[bucket]
  }

  /** The first bucket from `start` that an observation fits. */
  function BucketFrom(ms: int, start: nat): (b: nat)
    requires start < BUCKETS
    ensures start <= b < BUCKETS && Fits(ms, b)
    ensures forall i :: start <= i < b ==> !Fits(ms, i)
    decreases BUCKETS - start
  {
    if start == |BOUNDS| || Fits(ms, start) then start else BucketFrom(ms, start + 1)
  }

  function BucketOf(ms: int): (b: nat)
    ensures b < BUCKETS && Fits(ms, b) && forall i :: 0 <= i < b ==> !Fits(ms, i)
  {
    BucketFrom(ms, 0)
  }

  /** An observation, rounded up to the bound of its bucket and capped. */
  function Rounded(ms: int): (r: int) {
    BoundOf(BucketOf(ms))
  }

  /** Rounding goes up, except beyond the last bound, and by no more than to the next bound. */
  lemma RoundedBounds(ms: int)
    ensures ms <= 10000 ==> ms <= Rounded(ms)
    ensures ms > 10000 ==> Rounded(ms) == 10000
    ensures forall i :: 0 <= i < |BOUNDS| && ms <= BOUNDS[i] && 0 <= BOUNDS[i] ==> Rounded(ms) <= BOUNDS[i]
    ensures Rounded(ms) in BOUNDS
  {
    var b := BucketOf(ms);
    if ms > 10000 {
      assert !Fits(ms, 11);
    }
    forall i | 0 <= i < |BOUNDS| && ms <= BOUNDS[i] ensures Rounded(ms) <= BOUNDS[i] {
      assert BOUNDS[i] == BoundOf(i) && 0 <= BOUNDS[i];
      assert Fits(ms, i);
      BoundsRise(b, i);
    }
  }

  lemma BucketIs(ms: int, b: nat)
    requires b < BUCKETS && Fits(ms, b) && forall i :: 0 <= i < b ==> !Fits(ms, i)
    ensures BucketOf(ms) == b
  {
    assert Fits(ms, BucketOf(ms)) && Fits(ms, b);
  }

  lemma BucketMonotone(a: int, b: int)
    requires a <= b
    ensures BucketOf(a) <= BucketOf(b)
  {
    assert Fits(a, BucketOf(b));
  }

  // ---------- counts ----------

  function CountIn(obs: seq<int>, bucket: nat): nat
    decreases |obs|
  {
    if obs == [] then 0
    else CountIn(obs[..|obs| - 1], bucket) + (if BucketOf(obs[|obs| - 1]) == bucket then 1 else 0)
  }

  /** How many observations fall into the first n buckets. */
  function CountBelow(obs: seq<int>, n: nat): nat
    decreases |obs|
  {
    if obs == [] then 0
    else CountBelow(obs[..|obs| - 1], n) + (if BucketOf(obs[|obs| - 1]) < n then 1 else 0)
  }

  /** The counts that a sequence of observations leaves in the buckets. */
  function Counts(obs: seq<int>): (counts: seq<int>)
    ensures |counts| == BUCKETS && forall i :: 0 <= i < BUCKETS ==> counts[i] == CountIn(obs, i)
  {
    seq(BUCKETS, i requires 0 <= i < BUCKETS => CountIn(obs, i))
  }

  lemma {:induction false} CountBelowStep(obs: seq<int>, n: nat)
    ensures CountBelow(obs, n + 1) == CountBelow(obs, n) + CountIn(obs, n)
    decreases |obs|
  {
    if obs != [] {
      CountBelowStep(obs[..|obs| - 1], n);
    }
  }

  lemma {:induction false} CountBelowEnds(obs: seq<int>)
    ensures CountBelow(obs, 0) == 0 && CountBelow(obs, BUCKETS) == |obs|
    decreases |obs|
  {
    if obs != [] {
      CountBelowEnds(obs[..|obs| - 1]);
    }
  }

  predicate Sorted(s: seq<int>) {
    forall i, j :: 0 <= i < j < |s| ==> s[i] <= s[j]
  }

  /** In sorted observations, the k-th is in the first n buckets exactly when more than k are. */
  lemma {:induction false} SortedCount(s: seq<int>, n: nat, k: nat)
    requires Sorted(s) && k < |s|
    ensures k < CountBelow(s, n) <==> BucketOf(s[k]) < n
    decreases |s|
  {
    var last := |s| - 1;
    if BucketOf(s[last]) < n {
      AllBelow(s, n);
      BucketMonotone(s[k], s[last]);
    } else if k < last {
      SortedCount(s[..last], n, k);
    } else {
      CountBelowAtMost(s[..last], n);
    }
  }

  lemma {:induction false} CountBelowAtMost(s: seq<int>, n: nat)
    ensures CountBelow(s, n) <= |s|
    decreases |s|
  {
    if s != [] {
      CountBelowAtMost(s[..|s| - 1], n);
    }
  }

  lemma {:induction false} AllBelow(s: seq<int>, n: nat)
    requires Sorted(s) && s != [] && BucketOf(s[|s| - 1]) < n
    ensures CountBelow(s, n) == |s|
    decreases |s|
  {
    var last := |s| - 1;
    if last > 0 {
      BucketMonotone(s[last - 1], s[last]);
      AllBelow(s[..last], n);
    }
  }

  /** Dropping the last observation and observation i, in either order. */
  lemma FrontWithout(s: seq<int>, i: nat)
    requires i < |s| - 1
    ensures var last, rest := |s| - 1, s[..i] + s[i + 1..];
            && rest == s[..last][..i] + s[..last][i + 1..] + [s[last]]
            && rest[..|rest| - 1] == s[..last][..i] + s[..last][i + 1..]
            && rest[|rest| - 1] == s[last] && s[..last][i] == s[i]
  {
    var last := |s| - 1;
    assert s[..last][i + 1..] == s[i + 1..last];
    assert s[i + 1..] == s[i + 1..last] + [s[last]];
    assert s[..last][..i] == s[..i];
  }

  lemma {:induction false} CountBelowRemove(s: seq<int>, i: nat, n: nat)
    requires i < |s|
    ensures CountBelow(s, n) == CountBelow(s[..i] + s[i + 1..], n) + (if BucketOf(s[i]) < n then 1 else 0)
    decreases |s|
  {
    hide BucketOf;
    var last := |s| - 1;
    if i < last {
      CountBelowRemove(s[..last], i, n);
      FrontWithout(s, i);
    } else {
      assert s[..i] + s[i + 1..] == s[..last];
    }
  }

  /** Counting does not depend on the order of the observations. */
  lemma {:induction false} CountBelowPermutes(a: seq<int>, b: seq<int>, n: nat)
    requires multiset(a) == multiset(b)
    ensures CountBelow(a, n) == CountBelow(b, n)
    decreases |a|
  {
    if a == [] {
      assert |multiset(b)| == 0;
    } else {
      var last := |a| - 1;
      var x := a[last];
      assert a == a[..last] + [x];
      assert x in multiset(b);
      var i :| 0 <= i < |b| && b[i] == x;
      var rest := b[..i] + b[i + 1..];
      assert b == b[..i] + [x] + b[i + 1..];
      assert multiset(rest) == multiset(b) - multiset{x};
      assert multiset(a[..last]) == multiset(a) - multiset{x};
      CountBelowPermutes(a[..last], rest, n);
      CountBelowRemove(b, i, n);
    }
  }

  /** Every sequence of observations can be sorted. */
  lemma {:induction false} SortedCopy(obs: seq<int>) returns (s: seq<int>)
    ensures Sorted(s) && multiset(s) == multiset(obs) && |s| == |obs|
    decreases |obs|
  {
    if obs == [] {
      return [];
    }
    var last := |obs| - 1;
    var front := SortedCopy(obs[..last]);
    assert obs == obs[..last] + [obs[last]];
    s := SortedInsert(front, obs[last]);
  }

  lemma {:induction false} SortedInsert(s: seq<int>, x: int) returns (r: seq<int>)
    requires Sorted(s)
    ensures Sorted(r) && multiset(r) == multiset(s) + multiset{x} && |r| == |s| + 1
    decreases |s|
  {
    var last := |s| - 1;
    if s == [] || s[last] <= x {
      return s + [x];
    }
    assert s == s[..last] + [s[last]];
    r := SortedInsert(s[..last], x);
    forall i | 0 <= i < |r| ensures r[i] <= s[last] {
      assert r[i] in multiset(r);
    }
    r := r + [s[last]];
  }

  // ---------- values ----------

  /** valueAt, from bucket i on, with `seen` observations in the buckets before it. */
  function ValueFrom(counts: seq<int>, i: nat, seen: int, index: int): int
    requires i <= |counts| == BUCKETS
    decreases |counts| - i
  {
    if i == |counts| then 0
    else if counts[i] <= 0 then ValueFrom(counts, i + 1, seen, index)
    else if index < seen + counts[i] then BoundOf(i)
    else ValueFrom(counts, i + 1, seen + counts[i], index)
  }

  function ValueAt(counts: seq<int>, index: int): int
    requires |counts| == BUCKETS
  {
    ValueFrom(counts, 0, 0, index)
  }

  lemma {:induction false} ValueFromBucket(obs: seq<int>, s: seq<int>, i: nat, k: nat)
    requires Sorted(s) && multiset(s) == multiset(obs) && k < |s|
    requires i < BUCKETS && i <= BucketOf(s[k])
    ensures ValueFrom(Counts(obs), i, CountBelow(obs, i), k) == Rounded(s[k])
    decreases BUCKETS - i
  {
    hide CountBelow; hide BucketOf; hide BoundOf; hide Sorted;
    CountBelowStep(obs, i);
    CountBelowPermutes(s, obs, i + 1);
    SortedCount(s, i + 1, k);
    CountBelowPermutes(s, obs, i);
    SortedCount(s, i, k);
    if i < BucketOf(s[k]) {
      ValueFromBucket(obs, s, i + 1, k);
    }
  }

  /**
   * valueAt is an order statistic: for any observations, and `s` the same ones
   * sorted, it gives the k-th smallest, rounded up to its bucket bound.
   */
  lemma ValueAtIsOrderStatistic(obs: seq<int>, s: seq<int>, k: nat)
    requires Sorted(s) && multiset(s) == multiset(obs) && k < |s|
    ensures ValueAt(Counts(obs), k) == Rounded(s[k])
  {
    CountBelowEnds(obs);
    ValueFromBucket(obs, s, 0, k);
  }

  // ---------- percentiles ----------

  function Ceil(x: real): int {
    -((-x).Floor)
  }

  /** math.Round: halves go away from zero. */
  function Round(x: real): int {
    if x >= 0.0 then (x + 0.5).Floor else -((-x + 0.5).Floor)
  }

  /** The value at a position between two indices. */
  function Interpolate(lower: int, upper: int, weight: real): real {
    lower as real * (1.0 - weight) + upper as real * weight
  }

  function Fraction(p: real): (f: real)
    ensures 0.0 <= f <= 1.0
    ensures 0.0 <= p <= 1.0 ==> f == p
  {
    var f := if p > 1.0 then p / 100.0 else p;
    if f < 0.0 then 0.0 else if f > 1.0 then 1.0 else f
  }

  /** The value at a real position; whole positions need no interpolation. */
  function PositionValue(counts: seq<int>, position: real): real
    requires |counts| == BUCKETS
  {
    Interpolate(ValueAt(counts, position.Floor), ValueAt(counts, Ceil(position)), position - position.Floor as real)
  }

  function Scaled(fraction: real, n: real): real {
    fraction * n
  }

  /** Where in the sorted observations a percentile lies. */
  function Position(p: real, total: int): real {
    Scaled(Fraction(p), (total - 1) as real)
  }

  function Percentile(counts: seq<int>, total: int, p: real): int
    requires |counts| == BUCKETS
  {
    if total == 0 then 0 else Round(PositionValue(counts, Position(p, total)))
  }

  lemma InterpolateIs(lower: int, upper: int, weight: real)
    ensures Interpolate(lower, upper, weight) == lower as real * (1.0 - weight) + upper as real * weight
  {
  }

  lemma InterpolateBetween(lower: int, upper: int, weight: real)
    requires lower <= upper && 0.0 <= weight <= 1.0
    ensures lower as real <= Interpolate(lower, upper, weight) <= upper as real
    ensures weight == 0.0 ==> Interpolate(lower, upper, weight) == lower as real
  {
    var gap := upper as real - lower as real;
    assert Interpolate(lower, upper, weight) == lower as real + gap * weight;
    assert 0.0 <= gap * weight <= gap;
  }

  lemma InterpolateMonotone(lower: int, upper: int, a: real, b: real)
    requires lower <= upper && a <= b
    ensures Interpolate(lower, upper, a) <= Interpolate(lower, upper, b)
  {
    var gap := upper as real - lower as real;
    assert Interpolate(lower, upper, b) - Interpolate(lower, upper, a) == gap * (b - a);
  }

  /** The values of a histogram with observations: rising with the index, and within the bounds. */
  ghost predicate Rising(counts: seq<int>, total: nat)
    requires |counts| == BUCKETS
  {
    && (forall k :: 0 <= k < total ==> 1 <= ValueAt(counts, k) <= 10000)
    && (forall j, k :: 0 <= j <= k < total ==> ValueAt(counts, j) <= ValueAt(counts, k))
  }

  lemma ValuesRise(obs: seq<int>, s: seq<int>)
    requires Sorted(s) && multiset(s) == multiset(obs)
    ensures |s| == |obs| && Rising(Counts(obs), |obs|)
  {
    assert |multiset(s)| == |multiset(obs)|;
    forall j, k | 0 <= j <= k < |obs|
      ensures 1 <= ValueAt(Counts(obs), j) <= ValueAt(Counts(obs), k) <= 10000
    {
      ValueAtIsOrderStatistic(obs, s, j);
      ValueAtIsOrderStatistic(obs, s, k);
      BucketMonotone(s[j], s[k]);
      BoundsRise(BucketOf(s[j]), BucketOf(s[k]));
    }
    forall k | 0 <= k < |obs| ensures 1 <= ValueAt(Counts(obs), k) <= 10000 {
      assert k <= k;
    }
  }

  lemma CeilFloor(x: real)
    ensures x.Floor as real <= x <= Ceil(x) as real
    ensures x.Floor <= Ceil(x) <= x.Floor + 1
    ensures x == x.Floor as real ==> Ceil(x) == x.Floor
  {
  }

  lemma PositionsRise(counts: seq<int>, total: nat, x: real, y: real)
    requires |counts| == BUCKETS && Rising(counts, total)
    requires 0.0 <= x <= y <= (total as int - 1) as real
    ensures 1.0 <= PositionValue(counts, x) <= PositionValue(counts, y) <= 10000.0
  {
    hide ValueAt; hide Interpolate;
    CeilFloor(x);
    CeilFloor(y);
    assert Ceil(x) < total && Ceil(y) < total;
    var xl, xu := ValueAt(counts, x.Floor), ValueAt(counts, Ceil(x));
    var yl, yu := ValueAt(counts, y.Floor), ValueAt(counts, Ceil(y));
    InterpolateBetween(xl, xu, x - x.Floor as real);
    InterpolateBetween(yl, yu, y - y.Floor as real);
    if x.Floor == y.Floor {
      if Ceil(x) == Ceil(y) {
        InterpolateMonotone(xl, xu, x - x.Floor as real, y - y.Floor as real);
      }
    } else {
      assert Ceil(x) <= y.Floor;
    }
  }

  lemma RoundMonotone(x: real, y: real)
    requires x <= y
    ensures Round(x) <= Round(y)
  {
  }

  lemma ProductAtLeastZero(x: real, y: real)
    requires x >= 0.0 && y >= 0.0
    ensures x * y >= 0.0
  {
  }

  lemma Scales(p: real, q: real, n: real)
    requires 0.0 <= p <= q <= 1.0 && n >= 0.0
    ensures 0.0 <= Scaled(p, n) <= Scaled(q, n) <= n
  {
    ProductAtLeastZero(p, n);
    ProductAtLeastZero(q - p, n);
    ProductAtLeastZero(1.0 - q, n);
    assert (q - p) * n == q * n - p * n;
    assert (1.0 - q) * n == n - q * n;
  }

  lemma PositionsOrdered(p: real, q: real, total: nat)
    requires Fraction(p) <= Fraction(q) && total > 0
    ensures 0.0 <= Position(p, total) <= Position(q, total) <= (total - 1) as real
  {
    hide Fraction; hide Scaled;
    Scales(Fraction(p), Fraction(q), (total - 1) as real);
  }

  /** Percentile rises on [0, 1], and lies in 1 .. 10000 for any p once anything was observed. */
  lemma PercentileMonotone(obs: seq<int>, p: real, q: real)
    requires obs != []
    ensures 1 <= Percentile(Counts(obs), |obs|, p) <= 10000
    ensures 0.0 <= p <= q <= 1.0 ==> Percentile(Counts(obs), |obs|, p) <= Percentile(Counts(obs), |obs|, q)
  {
    hide PositionValue; hide Fraction; hide Round; hide Rising; hide Sorted; hide Counts;
    var s := SortedCopy(obs);
    ValuesRise(obs, s);
    var counts := Counts(obs);
    hide Position;
    var x := Position(p, |obs|);
    PositionsOrdered(p, p, |obs|);
    PositionsRise(counts, |obs|, x, x);
    RoundBounds(PositionValue(counts, x));
    if 0.0 <= p <= q <= 1.0 {
      var y := Position(q, |obs|);
      PositionsOrdered(p, q, |obs|);
      PositionsRise(counts, |obs|, x, y);
      RoundMonotone(PositionValue(counts, x), PositionValue(counts, y));
    }
  }

  lemma RoundBounds(x: real)
    requires 1.0 <= x <= 10000.0
    ensures 1 <= Round(x) <= 10000
  {
    RoundMonotone(1.0, x);
    RoundMonotone(x, 10000.0);
    assert Round(1.0) == 1 && Round(10000.0) == 10000;
  }

  /** At a whole position a percentile is an order statistic. */
  lemma PercentileAtIndex(obs: seq<int>, s: seq<int>, p: real, k: nat)
    requires Sorted(s) && multiset(s) == multiset(obs) && k < |obs| && k < |s|
    requires 0.0 <= p <= 1.0 && p * (|obs| - 1) as real == k as real
    ensures Percentile(Counts(obs), |obs|, p) == Rounded(s[k])
  {
    hide PositionValue; hide ValueAt; hide Rounded; hide Round;
    ValueAtIsOrderStatistic(obs, s, k);
    var x := Position(p, |obs|);
    assert x == k as real && x.Floor == k;
    CeilFloor(x);
    WholePosition(Counts(obs), x);
  }

  /** Rounding is to the nearest, halves going up for what is not negative. */
  lemma RoundNear(x: real)
    requires x >= 0.0
    ensures x - 0.5 < Round(x) as real <= x + 0.5
  {
  }

  lemma InterpolateParts(lower: int, upper: int, x: real, k: nat)
    requires 1 <= lower <= upper && k as real <= x < (k + 1) as real
    ensures var v := lower as real * ((k + 1) as real - x) + upper as real * (x - k as real);
            v >= 0.0 && Interpolate(lower, upper, x - k as real) == v
  {
    InterpolateBetween(lower, upper, x - k as real);
    assert 1.0 - (x - k as real) == (k + 1) as real - x;
  }

  /**
   * Between two indices a percentile is the weighted mean of the two order
   * statistics, rounded: each weighs the more the nearer its index is.
   */
  lemma PercentileBetween(obs: seq<int>, s: seq<int>, p: real, k: nat)
    requires Sorted(s) && multiset(s) == multiset(obs) && k + 1 < |s|
    requires 0.0 <= p <= 1.0
    requires k as real <= p * (|obs| - 1) as real < (k + 1) as real
    ensures var x := p * (|obs| - 1) as real;
            var v := Rounded(s[k]) as real * ((k + 1) as real - x) + Rounded(s[k + 1]) as real * (x - k as real);
            v - 0.5 < Percentile(Counts(obs), |obs|, p) as real <= v + 0.5
  {
    hide ValueAt; hide Rounded; hide Counts; hide Rising; hide Sorted; hide Percentile;
    assert |obs| == |s| by { assert |multiset(s)| == |multiset(obs)|; }
    ValueAtIsOrderStatistic(obs, s, k);
    ValueAtIsOrderStatistic(obs, s, k + 1);
    ValuesRise(obs, s);
    BetweenValues(Counts(obs), |obs|, p, k);
  }

  lemma BetweenValues(counts: seq<int>, total: nat, p: real, k: nat)
    requires |counts| == BUCKETS && Rising(counts, total) && k + 1 < total && 0.0 <= p <= 1.0
    requires k as real <= p * (total - 1) as real < (k + 1) as real
    ensures var x := p * (total - 1) as real;
            var v := ValueAt(counts,
                             k) as real * ((k + 1) as real - x) + ValueAt(counts, k + 1) as real * (x - k as real);
            v - 0.5 < Percentile(counts, total, p) as real <= v + 0.5
  {
    hide ValueAt; hide Round; hide Interpolate; hide Rising; hide Scaled; hide PositionValue;
    RisesAt(counts, total, k);
    var lower, upper := ValueAt(counts, k), ValueAt(counts, k + 1);
    var x := Position(p, total);
    ScaledIs(p, (total - 1) as real);
    InterpolateParts(lower, upper, x, k);
    PositionValueIs(counts, x, k, upper);
    RoundNear(PositionValue(counts, x));
  }

  lemma ScaledIs(fraction: real, n: real)
    ensures Scaled(fraction, n) == fraction * n
  {
  }

  lemma FloorIs(x: real, k: nat)
    requires k as real <= x < (k + 1) as real
    ensures x.Floor == k && Ceil(x) == if x == k as real then k else k + 1
  {
  }

  lemma RisesAt(counts: seq<int>, total: nat, k: nat)
    requires |counts| == BUCKETS && Rising(counts, total) && k + 1 < total
    ensures 1 <= ValueAt(counts, k) <= ValueAt(counts, k + 1)
  {
  }

  lemma PositionValueIs(counts: seq<int>, x: real, k: nat, upper: int)
    requires |counts| == BUCKETS && k as real <= x < (k + 1) as real && ValueAt(counts, k + 1) == upper
    ensures PositionValue(counts, x) == Interpolate(ValueAt(counts, k), upper, x - k as real)
  {
    hide ValueAt;
    FloorIs(x, k);
  }

  /**
   * A percentile above one is a percentage; below nothing and beyond a hundred
   * it is cut off, and without observations it is nothing.
   */
  lemma PercentileOfAny(obs: seq<int>, s: seq<int>, p: real)
    requires Sorted(s) && multiset(s) == multiset(obs)
    ensures obs == [] ==> Percentile(Counts(obs), |obs|, p) == 0
    ensures obs != [] && p < 0.0 ==> |s| > 0 && Percentile(Counts(obs), |obs|, p) == Rounded(s[0])
    ensures 1.0 < p <= 100.0 ==> Percentile(Counts(obs), |obs|, p) == Percentile(Counts(obs), |obs|, p / 100.0)
    ensures obs != [] && p > 100.0 ==> |s| > 0 && Percentile(Counts(obs), |obs|, p) == Rounded(s[|s| - 1])
  {
    hide PositionValue; hide Rounded; hide Round; hide Counts; hide Sorted;
    assert |obs| == |s| by { assert |multiset(s)| == |multiset(obs)|; }
    if obs != [] && p < 0.0 {
      PercentileAtIndex(obs, s, 0.0, 0);
    } else if obs != [] && p > 100.0 {
      PercentileAtIndex(obs, s, 1.0, |s| - 1);
    }
  }

  // ---------- the histogram ----------

  class Histogram {
    const buckets: array<int>
    ghost var observed: seq<int>

    ghost predicate Valid()
      reads this, buckets
    {
      buckets[..] == Counts(observed)
    }

    constructor ()
      ensures Valid() && fresh(buckets) && observed == []
    {
      buckets := new int[BUCKETS](_ => 0);
      observed := [];
    }

    method Observe(ms: int)
      requires Valid()
      modifies this, buckets
      ensures Valid() && observed == old(observed) + [ms]
    {
      ghost var obs := observed;
      observed := obs + [ms];
      assert observed[..|obs|] == obs;
      var clamped := ms;
      if ms < 0 {
        clamped := 0;
      }
      var i := 0;
      while i < |BOUNDS|
        invariant i <= |BOUNDS| && buckets[..] == Counts(obs) && observed == obs + [ms]
        invariant forall j :: 0 <= j < i ==> !Fits(ms, j)
      {
        if clamped <= BOUNDS[i] {
          BucketIs(ms, i);
          buckets[i] := buckets[i] + 1;
          return;
        }
        i := i + 1;
      }
      BucketIs(ms, |BOUNDS|);
      buckets[|BOUNDS|] := buckets[|BOUNDS|] + 1;
    }

    /** Percentile, with reals for the floating-point numbers. */
    method PercentileOf(p: real) returns (value: int)
      requires Valid()
      ensures value == Percentile(Counts(observed), |observed|, p)
    {
      hide PositionValue; hide Round; hide Counts;
      ghost var obs := observed;
      CountBelowEnds(obs);
      var counts := buckets[..];
      var total := 0;
      var i := 0;
      while i < |counts|
        invariant i <= |counts| && total == CountBelow(obs, i)
      {
        CountBelowStep(obs, i);
        total := total + counts[i];
        i := i + 1;
      }
      if total == 0 {
        return 0;
      }
      var fraction := p;
      if fraction > 1.0 {
        fraction := fraction / 100.0;
      }
      if fraction < 0.0 {
        fraction := 0.0;
      }
      if fraction > 1.0 {
        fraction := 1.0;
      }
      assert fraction == Fraction(p);
      hide Fraction;
      var position := fraction * (total - 1) as real;
      assert position == Position(p, total);
      hide Scaled;
      value := ValueAtPosition(counts, position);
    }

    /** The end of Percentile, from the position on. */
    method ValueAtPosition(counts: seq<int>, position: real) returns (value: int)
      requires |counts| == BUCKETS
      ensures value == Round(PositionValue(counts, position))
    {
      hide ValueAt; hide Interpolate; hide Ceil; hide Round;
      var lowerIndex, upperIndex := position.Floor, Ceil(position);
      var lowerValue := ValueAtIndex(counts, lowerIndex);
      var upperValue := ValueAtIndex(counts, upperIndex);
      if lowerIndex == upperIndex {
        WholePosition(counts, position);
        return lowerValue;
      }
      var weight := position - position.Floor as real;
      value := Round(lowerValue as real * (1.0 - weight) + upperValue as real * weight);
      assert lowerValue as real * (1.0 - weight) + upperValue as real * weight
          == Interpolate(lowerValue, upperValue, weight) by {
        InterpolateIs(lowerValue, upperValue, weight);
      }
    }

    /** valueAt. */
    method ValueAtIndex(counts: seq<int>, index: int) returns (value: int)
      requires |counts| == BUCKETS
      ensures value == ValueAt(counts, index)
    {
      var seen := 0;
      var i := 0;
      while i < |counts|
        invariant i <= |counts| && ValueFrom(counts, i, seen, index) == ValueAt(counts, index)
      {
        if counts[i] > 0 {
          seen := seen + counts[i];
          if index < seen {
            if i < |BOUNDS| {
              return BOUNDS[i];
            }
            return BOUNDS[|BOUNDS| - 1];
          }
        }
        i := i + 1;
      }
      return 0;
    }
  }

  /** Without a second index there is nothing to interpolate or round. */
  lemma WholePosition(counts: seq<int>, position: real)
    requires |counts| == BUCKETS && position.Floor == Ceil(position)
    ensures Round(PositionValue(counts, position)) == ValueAt(counts, position.Floor)
  {
    CeilFloor(position);
    var v := ValueAt(counts, position.Floor);
    assert position == position.Floor as real;
    assert PositionValue(counts, position) == v as real;
    RoundWhole(v);
  }

  lemma RoundWhole(v: int)
    ensures Round(v as real) == v
  {
  }
}
