/**
 * The bounded-memory timing recorder (fasp_harness/realtime/scheduler.py:115-160) against
 * the exact list of samples.  Times are real numbers of microseconds.
 */
module Histogram {
  import opened Common

  const EdgeCount: nat := 25

  const BucketCount: nat := EdgeCount + 1

  /** 1, 2, 5, 10, 20, 50, … up to 100000000. */
  function Edge(i: nat): real {
    if i == 0 then 1.0 else if i == 1 then 2.0 else if i == 2 then 5.0 else 10.0 * Edge(i - 3)
  }

  lemma {:induction false} EdgesIncrease(i: nat)
    ensures 1.0 <= Edge(i) < Edge(i + 1)
  {
    if i >= 3 {
      EdgesIncrease(i - 3);
    }
  }

  lemma {:induction false} EdgesOrdered(i: nat, j: nat)
    requires i <= j
    ensures Edge(i) <= Edge(j) && (i < j ==> Edge(i) < Edge(j))
    decreases j - i
  {
    if i < j {
      EdgesOrdered(i, j - 1);
      EdgesIncrease(j - 1);
    }
  }

  /** The edges run through 1, 2 and 5 of every power of ten, up to a hundred seconds. */
  lemma {:induction false} EdgeTable(i: nat)
    ensures Edge(0) == 1.0 && Edge(1) == 2.0 && Edge(2) == 5.0 && Edge(i + 3) == 10.0 * Edge(i)
    ensures Edge(24) == 100000000.0
  {
    assert Edge(3) == 10.0 && Edge(6) == 100.0 && Edge(9) == 1000.0 && Edge(12) == 10000.0;
    assert Edge(15) == 100000.0 && Edge(18) == 1000000.0 && Edge(21) == 10000000.0;
  }

  /** A size is filed under the first edge that is not below it, and beyond the last under the last bucket. */
  lemma {:induction false} FiledUnder(v: real)
    ensures var b, size := Bucket(v), if v >= 0.0 then v else -v;
      && b <= 25 && (b < 25 ==> size <= Edge(b)) && (forall i: nat :: i < b ==> Edge(i) < size)
  {
    var b := Bucket(v);
    forall i: nat | i < b ensures Edge(i) < Abs(v) {
      EdgesOrdered(i, b - 1);
    }
  }

  /** `bisect_left` over the edges from `i` on: the first one that is not below `v`. */
  function BucketFrom(v: real, i: nat): (b: nat)
    requires i <= EdgeCount
    ensures i <= b <= EdgeCount
    ensures b < EdgeCount ==> v <= Edge(b)
    ensures i < b ==> Edge(b - 1) < v
    decreases EdgeCount - i, v
  {
    if i == EdgeCount || v <= Edge(i) then i else BucketFrom(v, i + 1)
  }

  function Abs(v: real): real { if v < 0.0 then -v else v }

  function Bucket(v: real): (b: nat)
    ensures b < BucketCount
  {
    BucketFrom(Abs(v), 0)
  }

  lemma {:induction false} BucketMonotone(u: real, v: real)
    requires 0.0 <= u <= v
    ensures Bucket(u) <= Bucket(v)
  {
    var a, b := Bucket(u), Bucket(v);
    if b < a {
      EdgesOrdered(b, a - 1);
    }
  }

  // ---------------------------------------------------------------------------------
  // Counting samples.

  function One(yes: bool): nat { if yes then 1 else 0 }

  function AtMost(xs: seq<real>, v: real): nat {
    if xs == [] then 0 else AtMost(xs[..|xs| - 1], v) + One(xs[|xs| - 1] <= v)
  }

  function Below(xs: seq<real>, v: real): nat {
    if xs == [] then 0 else Below(xs[..|xs| - 1], v) + One(xs[|xs| - 1] < v)
  }

  function InBucket(xs: seq<real>, b: nat): nat {
    if xs == [] then 0 else InBucket(xs[..|xs| - 1], b) + One(Bucket(xs[|xs| - 1]) == b)
  }

  /** Samples in the first `n` buckets. */
  function InFirst(xs: seq<real>, n: nat): nat {
    if xs == [] then 0 else InFirst(xs[..|xs| - 1], n) + One(Bucket(xs[|xs| - 1]) < n)
  }

  lemma {:induction false} Append(xs: seq<real>, v: real)
    ensures (xs + [v])[..|xs + [v]| - 1] == xs && (xs + [v])[|xs + [v]| - 1] == v
  {
  }

  lemma {:induction false} FirstGrows(xs: seq<real>, n: nat)
    ensures InFirst(xs, n + 1) == InFirst(xs, n) + InBucket(xs, n)
  {
    if xs != [] {
      FirstGrows(xs[..|xs| - 1], n);
    }
  }

  lemma {:induction false} FirstZero(xs: seq<real>)
    ensures InFirst(xs, 0) == 0 && InFirst(xs, BucketCount) == |xs|
  {
    if xs != [] {
      FirstZero(xs[..|xs| - 1]);
    }
  }

  lemma {:induction false} FirstMonotone(xs: seq<real>, m: nat, n: nat)
    requires m <= n
    ensures InFirst(xs, m) <= InFirst(xs, n)
    decreases n - m
  {
    if m < n {
      FirstMonotone(xs, m, n - 1);
      FirstGrows(xs, n - 1);
      assert InFirst(xs, n - 1) <= InFirst(xs, n);
    }
  }

  /** Samples without their signs, which is how they are filed. */
  function Sizes(xs: seq<real>): (r: seq<real>)
    ensures |r| == |xs| && NonNegative(r)
  {
    if xs == [] then [] else Sizes(xs[..|xs| - 1]) + [Abs(xs[|xs| - 1])]
  }

  lemma {:induction false} SizesOfNonNegative(xs: seq<real>)
    requires NonNegative(xs)
    ensures Sizes(xs) == xs
  {
    if xs != [] {
      SizesOfNonNegative(xs[..|xs| - 1]);
      assert xs == xs[..|xs| - 1] + [xs[|xs| - 1]];
    }
  }

  lemma {:induction false} FiledBySize(xs: seq<real>, n: nat)
    ensures InFirst(Sizes(xs), n) == InFirst(xs, n)
  {
    if xs != [] {
      FiledBySize(xs[..|xs| - 1], n);
      Append(Sizes(xs[..|xs| - 1]), Abs(xs[|xs| - 1]));
    }
  }

  ghost predicate NonNegative(xs: seq<real>) { forall i :: 0 <= i < |xs| ==> xs[i] >= 0.0 }

  /** The buckets up to a value's own hold all samples not above it; those before it only samples below it. */
  lemma {:induction false} BucketsBracket(xs: seq<real>, v: real)
    requires NonNegative(xs) && v >= 0.0
    ensures AtMost(xs, v) <= InFirst(xs, Bucket(v) + 1) && InFirst(xs, Bucket(v)) <= Below(xs, v)
  {
    if xs != [] {
      var last := xs[|xs| - 1];
      BucketsBracket(xs[..|xs| - 1], v);
      if last <= v {
        BucketMonotone(last, v);
      } else {
        BucketMonotone(v, last);
      }
    }
  }

  // ---------------------------------------------------------------------------------
  // The exact order statistic.

  /** `v` is the `k`-th smallest sample. */
  ghost predicate IsRanked(xs: seq<real>, k: nat, v: real) {
    v in xs && Below(xs, v) < k <= AtMost(xs, v)
  }

  ghost predicate IsMax(xs: seq<real>, m: real) { m in xs && forall i :: 0 <= i < |xs| ==> xs[i] <= m }

  function KeepBelow(xs: seq<real>, m: real): (r: seq<real>)
    ensures forall i :: 0 <= i < |r| ==> r[i] < m && r[i] in xs
  {
    if xs == [] then [] else
    var rest, last := KeepBelow(xs[..|xs| - 1], m), xs[|xs| - 1];
    if last < m then rest + [last] else rest
  }

  lemma {:induction false} KeepBelowCounts(xs: seq<real>, m: real, v: real)
    requires v < m
    ensures var r := KeepBelow(xs, m);
      |r| == Below(xs, m) && Below(r, v) == Below(xs, v) && AtMost(r, v) == AtMost(xs, v)
  {
    if xs != [] {
      KeepBelowCounts(xs[..|xs| - 1], m, v);
      Append(KeepBelow(xs[..|xs| - 1], m), xs[|xs| - 1]);
    }
  }

  lemma {:induction false} MaxExists(xs: seq<real>) returns (m: real)
    requires xs != []
    ensures IsMax(xs, m) && Below(xs, m) < |xs| == AtMost(xs, m)
  {
    m := xs[0];
    var i := 1;
    while i < |xs|
      invariant 1 <= i <= |xs| && m in xs && forall j :: 0 <= j < i ==> xs[j] <= m
    {
      if xs[i] > m { m := xs[i]; }
      i := i + 1;
    }
    AllAtMost(xs, m);
    SomeNotBelow(xs, m);
  }

  lemma {:induction false} AllAtMost(xs: seq<real>, m: real)
    requires forall i :: 0 <= i < |xs| ==> xs[i] <= m
    ensures AtMost(xs, m) == |xs|
  {
    if xs != [] {
      AllAtMost(xs[..|xs| - 1], m);
    }
  }

  lemma {:induction false} SomeNotBelow(xs: seq<real>, m: real)
    ensures Below(xs, m) <= |xs| && (m in xs ==> Below(xs, m) < |xs|)
  {
    if xs != [] {
      SomeNotBelow(xs[..|xs| - 1], m);
    }
  }

  /** Every rank has its sample. */
  lemma {:induction false} RankedExists(xs: seq<real>, k: nat) returns (v: real)
    requires 1 <= k <= |xs|
    ensures IsRanked(xs, k, v)
    decreases |xs|
  {
    var m := MaxExists(xs);
    v := m;
    if Below(xs, m) >= k {
      KeepBelowCounts(xs, m, m - 1.0);
      v := RankedExists(KeepBelow(xs, m), k);
      KeepBelowCounts(xs, m, v);
    }
  }

  // ---------------------------------------------------------------------------------
  // What the histogram reports.

  /** A value rounded up to the edge of its bucket, but not above the maximum. */
  function Report(v: real, max: real): real {
    if Bucket(v) == EdgeCount then max else MinReal(Edge(Bucket(v)), max)
  }

  /** The report is off by less than a bucket: it lies between the value and the maximum, in the value's bucket. */
  lemma {:induction false} ReportIsClose(v: real, max: real)
    requires 0.0 <= v <= max
    ensures v <= Report(v, max) <= max && Bucket(Report(v, max)) == Bucket(v)
  {
    var q, b := Report(v, max), Bucket(v);
    BucketMonotone(v, q);
    if b < EdgeCount {
      NotPastEdge(q, b);
    }
  }

  lemma {:induction false} NotPastEdge(q: real, b: nat)
    requires b < EdgeCount && 0.0 <= q <= Edge(b)
    ensures Bucket(q) <= b
  {
    var c := Bucket(q);
    if b < c {
      EdgesOrdered(b, c - 1);
    }
  }

  /** Python's `round`: to the nearest integer, halves to the even one. */
  function Round(x: real): int {
    var f := x.Floor;
    var d := x - f as real;
    if d < 0.5 then f else if d > 0.5 then f + 1 else if f % 2 == 0 then f else f + 1
  }

  function Share(fraction: real, count: nat): real { fraction * count as real }

  function Target(fraction: real, count: nat): (k: nat)
    requires count >= 1
    ensures 1 <= k <= count
  {
    var r := Round(Share(fraction, count));
    if r < 1 then 1 else if r > count then count else r
  }

  /** The nearest integer, and the even one of two equally near. */
  lemma {:induction false} RoundIsNearest(x: real)
    ensures -0.5 <= Round(x) as real - x <= 0.5
    ensures Round(x) as real - x == 0.5 || Round(x) as real - x == -0.5 ==> Round(x) % 2 == 0
  {
  }

  /** The target rank is the fraction's share of the samples to the nearest integer, kept between 1 and their number. */
  lemma {:induction false} TargetIsNearest(fraction: real, count: nat)
    requires count >= 1
    ensures var k, share := Target(fraction, count), Share(fraction, count);
      && (share <= 0.5 ==> k == 1) && (share >= count as real + 0.5 ==> k == count)
      && (0.5 <= share <= count as real + 0.5 ==> -0.5 <= k as real - share <= 0.5)
  {
    RoundIsNearest(Share(fraction, count));
  }

  lemma {:induction false} RoundMonotone(x: real, y: real)
    requires x <= y
    ensures Round(x) <= Round(y)
  {
  }

  lemma {:induction false} ShareMonotone(f: real, g: real, count: nat)
    requires f <= g
    ensures Share(f, count) <= Share(g, count)
  {
    var c := count as real;
    assert (g - f) * c >= 0.0;
    assert (g - f) * c == g * c - f * c;
  }

  ghost predicate IsMin(xs: seq<real>, m: real) { m in xs && forall i :: 0 <= i < |xs| ==> m <= xs[i] }

  ghost predicate Extremes(xs: seq<real>, min: Option<real>, max: Option<real>) {
    if xs == [] then max == None && min == None
    else max.Some? && IsMax(xs, max.value) && min.Some? && IsMin(xs, min.value)
  }

  function Lower(min: Option<real>, v: real): Option<real> { if min.None? || v < min.value then Some(v) else min }

  function Higher(max: Option<real>, v: real): Option<real> { if max.None? || v > max.value then Some(v) else max }

  lemma {:induction false} ExtremesMore(xs: seq<real>, min: Option<real>, max: Option<real>, v: real)
    requires Extremes(xs, min, max)
    ensures Extremes(xs + [v], Lower(min, v), Higher(max, v))
  {
    assert (xs + [v])[|xs|] == v;
  }

  /** The occupancies are those of the samples. */
  ghost predicate Filed(xs: seq<real>, occupancy: seq<nat>) {
    && |occupancy| == BucketCount
    && forall b :: 0 <= b < BucketCount ==> occupancy[b] == InBucket(xs, b)
  }

  lemma {:induction false} FiledMore(xs: seq<real>, occupancy: seq<nat>, v: real)
    requires Filed(xs, occupancy)
    ensures Filed(xs + [v], occupancy[Bucket(v) := occupancy[Bucket(v)] + 1])
  {
    var more := occupancy[Bucket(v) := occupancy[Bucket(v)] + 1];
    forall b | 0 <= b < BucketCount ensures more[b] == InBucket(xs + [v], b) {
      Append(xs, v);
    }
  }

  lemma {:induction false} TotalMore(xs: seq<real>, v: real)
    ensures Total(xs + [v]) == Total(xs) + v
  {
    Append(xs, v);
  }

  ghost predicate Recorded(xs: seq<real>, occupancy: seq<nat>, total: real, min: Option<real>, max: Option<real>) {
    Filed(xs, occupancy) && total == Total(xs) && Extremes(xs, min, max)
  }

  lemma {:induction false} RecordedMore(
    xs: seq<real>, occupancy: seq<nat>, total: real, min: Option<real>, max: Option<real>, v: real)
    requires Recorded(xs, occupancy, total, min, max)
    ensures Recorded(
      xs + [v], occupancy[Bucket(v) := occupancy[Bucket(v)] + 1], total + v, Lower(min, v), Higher(max, v))
  {
    FiledMore(xs, occupancy, v);
    TotalMore(xs, v);
    ExtremesMore(xs, min, max, v);
  }

  class TimingRecorder {
    var count: nat
    var total: real
    var min: Option<real>
    var max: Option<real>
    const buckets: array<nat>
    ghost var samples: seq<real>

    /** The recorder tells the truth about the samples it has seen. */
    ghost predicate Valid()
      reads this, buckets
    {
      && buckets.Length == BucketCount && count == |samples|
      && Recorded(samples, buckets[..], total, min, max)
    }

    constructor ()
      ensures Valid() && samples == [] && fresh(buckets)
    {
      count, total, min, max, samples := 0, 0.0, None, None, [];
      buckets := new nat[BucketCount](_ => 0);
    }

    method CountIn(b: nat)
      requires buckets.Length == BucketCount && b < BucketCount
      modifies buckets
      ensures buckets[..] == old(buckets[..])[b := old(buckets[..])[b] + 1]
    {
      buckets[b] := buckets[b] + 1;
    }

    /** One more sample, and nothing else changes. */
    method RecordUs(v: real)
      requires Valid()
      modifies this, buckets
      ensures Valid() && samples == old(samples) + [v]
    {
      var b := Bucket(v);
      RecordedMore(samples, buckets[..], total, min, max, v);
      CountIn(b);
      count, total, samples := count + 1, total + v, samples + [v];
      if min.None? || v < min.value { min := Some(v); }
      if max.None? || v > max.value { max := Some(v); }
    }

    /**
     * The exact order statistic of the target rank (of the samples' sizes, when some are
     * negative) rounded up to its bucket's edge; zero before the first sample.
     */
    method QuantileUs(fraction: real) returns (q: real)
      requires Valid()
      ensures samples == [] ==> q == 0.0
      ensures samples != [] ==> q <= max.value
      ensures samples != [] ==>
        forall v :: IsRanked(Sizes(samples), Target(fraction, |samples|), v) ==> q == Report(v, max.value)
      // Against the exact order statistic by value.
      ensures samples != [] ==>
        forall v :: IsRanked(samples, Target(fraction, |samples|), v) ==>
          v <= q <= max.value && (NonNegative(samples) ==> Bucket(q) == Bucket(v))
    {
      if count == 0 { return 0.0; }
      var target := Target(fraction, count);
      var seen := 0;
      FirstZero(samples);
      for index := 0 to BucketCount
        invariant seen == InFirst(samples, index) < target
      {
        seen := seen + buckets[index];
        assert buckets[..][index] == InBucket(samples, index);
        FirstGrows(samples, index);
        if seen >= target {
          q := if index >= EdgeCount then max.value else MinReal(Edge(index), max.value);
          RankedIsFound(samples, target, index);
          ReportBrackets(samples, target, q, max.value);
          return;
        }
      }
      assert false;
    }
  }

  function Total(xs: seq<real>): real { if xs == [] then 0.0 else Total(xs[..|xs| - 1]) + xs[|xs| - 1] }

  /** The bucket where the running total first reaches the target is the order statistic's. */
  lemma {:induction false} FoundBucket(xs: seq<real>, k: nat, v: real, b: nat)
    requires NonNegative(xs) && IsRanked(xs, k, v)
    requires InFirst(xs, b) < k <= InFirst(xs, b + 1)
    ensures Bucket(v) == b
  {
    BucketsBracket(xs, v);
    if Bucket(v) < b {
      FirstMonotone(xs, Bucket(v) + 1, b);
    } else if b < Bucket(v) {
      FirstMonotone(xs, b + 1, Bucket(v));
    }
  }

  lemma {:induction false} RankedIsFound(xs: seq<real>, k: nat, b: nat)
    requires InFirst(xs, b) < k <= InFirst(xs, b + 1)
    ensures forall v :: IsRanked(Sizes(xs), k, v) ==> Bucket(v) == b
  {
    FiledBySize(xs, b);
    FiledBySize(xs, b + 1);
    forall v | IsRanked(Sizes(xs), k, v) ensures Bucket(v) == b {
      FoundBucket(Sizes(xs), k, v, b);
    }
  }

  /** Bucket occupancies add up to the number of samples. */
  lemma {:induction false} BucketsAddUp(xs: seq<real>, occupancy: seq<nat>, n: nat)
    requires Filed(xs, occupancy) && n <= BucketCount
    ensures SumTo(occupancy, n) == InFirst(xs, n)
    ensures n == BucketCount ==> SumTo(occupancy, n) == |xs|
  {
    FirstZero(xs);
    if n > 0 {
      BucketsAddUp(xs, occupancy, n - 1);
      FirstGrows(xs, n - 1);
    }
  }

  function SumTo(s: seq<nat>, n: nat): nat
    requires n <= |s|
  {
    if n == 0 then 0 else SumTo(s, n - 1) + s[n - 1]
  }

  lemma {:induction false} RankedOrdered(xs: seq<real>, j: nat, u: real, k: nat, v: real)
    requires IsRanked(xs, j, u) && IsRanked(xs, k, v) && j <= k
    ensures u <= v
  {
    if v < u {
      AtMostBelow(xs, v, u);
    }
  }

  lemma {:induction false} AtMostBelow(xs: seq<real>, v: real, u: real)
    requires v < u
    ensures AtMost(xs, v) <= Below(xs, u)
  {
    if xs != [] {
      AtMostBelow(xs[..|xs| - 1], v, u);
    }
  }

  /** A larger fraction never gets a smaller report. */
  lemma {:induction false} QuantilesIncrease(xs: seq<real>, f: real, g: real, u: real, v: real, max: real)
    requires xs != [] && NonNegative(xs) && f <= g && IsMax(xs, max)
    requires IsRanked(xs, Target(f, |xs|), u) && IsRanked(xs, Target(g, |xs|), v)
    ensures Report(u, max) <= Report(v, max)
  {
    ShareMonotone(f, g, |xs|);
    RoundMonotone(Share(f, |xs|), Share(g, |xs|));
    RankedOrdered(xs, Target(f, |xs|), u, Target(g, |xs|), v);
    BucketMonotone(u, v);
    EdgesOrdered(Bucket(u), Bucket(v));
  }

  lemma {:induction false} AtMostBySize(xs: seq<real>, w: real)
    ensures AtMost(Sizes(xs), w) <= AtMost(xs, w)
  {
    if xs != [] {
      AtMostBySize(xs[..|xs| - 1], w);
      Append(Sizes(xs[..|xs| - 1]), Abs(xs[|xs| - 1]));
    }
  }

  /** The statistic by size is not below the statistic by value. */
  lemma {:induction false} SizeIsNotBelowValue(xs: seq<real>, k: nat, v: real, u: real)
    requires IsRanked(xs, k, v) && IsRanked(Sizes(xs), k, u)
    ensures v <= u
  {
    AtMostBySize(xs, u);
    if u < v {
      AtMostBelow(xs, u, v);
    }
  }

  lemma {:induction false} ReportCovers(u: real, max: real)
    requires u >= 0.0
    ensures Report(u, max) == max || u <= Report(u, max) <= max
  {
  }

  /**
   * The reported quantile brackets the exact one, for any samples: not below it and not above
   * the maximum; and it lies in its bucket when no sample is negative.
   */
  lemma {:induction false} QuantileBrackets(xs: seq<real>, k: nat, v: real, u: real, max: real)
    requires IsRanked(xs, k, v) && IsRanked(Sizes(xs), k, u) && IsMax(xs, max)
    ensures v <= Report(u, max) <= max
    ensures NonNegative(xs) ==> Bucket(Report(u, max)) == Bucket(v)
  {
    SizeIsNotBelowValue(xs, k, v, u);
    RankedSizeIsNotNegative(xs, k, u);
    ReportCovers(u, max);
    if NonNegative(xs) {
      SizesOfNonNegative(xs);
      RankedOrdered(xs, k, u, k, v);
      ReportIsClose(v, max);
    }
  }

  /** A report made from the statistic by size brackets the statistic by value. */
  lemma {:induction false} ReportBrackets(xs: seq<real>, k: nat, q: real, max: real)
    requires 1 <= k <= |xs| && IsMax(xs, max)
    requires forall u :: IsRanked(Sizes(xs), k, u) ==> q == Report(u, max)
    ensures forall v :: IsRanked(xs, k, v) ==> v <= q <= max && (NonNegative(xs) ==> Bucket(q) == Bucket(v))
  {
    var u := RankedExists(Sizes(xs), k);
    forall v | IsRanked(xs, k, v) ensures v <= q <= max && (NonNegative(xs) ==> Bucket(q) == Bucket(v)) {
      QuantileBrackets(xs, k, v, u, max);
    }
  }

  // ---------------------------------------------------------------------------------
  // Arbitrary samples: the order statistic is by value, the buckets are by size.

  lemma {:induction false} EdgeIsInItsBucket(b: nat)
    requires b < EdgeCount
    ensures Bucket(Edge(b)) == b
  {
    EdgesOrdered(0, b);
    NotPastEdge(Edge(b), b);
    var c := Bucket(Edge(b));
    if c < b {
      EdgesOrdered(c, b);
    }
  }

  /** The report lies in the statistic's bucket by size, or in the maximum's if that comes first or is all there is. */
  lemma {:induction false} ReportBucket(u: real, max: real)
    requires u >= 0.0
    ensures Bucket(Report(u, max)) ==
      if max < 0.0 || Bucket(max) <= Bucket(u) then Bucket(max) else Bucket(u)
  {
    var b := Bucket(u);
    if b < EdgeCount {
      EdgesOrdered(0, b);
      EdgeIsInItsBucket(b);
      if Edge(b) <= max {
        BucketMonotone(Edge(b), max);
      } else if max >= 0.0 {
        NotPastEdge(max, b);
      }
    }
  }

  /** Occupancies tell how far the statistic by size has got. */
  lemma {:induction false} SizeRankExactly(xs: seq<real>, k: nat, u: real, b: nat)
    requires IsRanked(Sizes(xs), k, u)
    ensures b <= Bucket(u) <==> InFirst(xs, b) < k
  {
    RankedSizeIsNotNegative(xs, k, u);
    BucketsBracket(Sizes(xs), u);
    FiledBySize(xs, Bucket(u));
    FiledBySize(xs, Bucket(u) + 1);
    if b <= Bucket(u) {
      FirstMonotone(xs, b, Bucket(u));
    } else {
      FirstMonotone(xs, Bucket(u) + 1, b);
    }
  }

  lemma {:induction false} RankedSizeIsNotNegative(xs: seq<real>, k: nat, u: real)
    requires IsRanked(Sizes(xs), k, u)
    ensures u >= 0.0
  {
    var i :| 0 <= i < |Sizes(xs)| && Sizes(xs)[i] == u;
  }

  /**
   * For any samples, negative or not: the report lies in the bucket of the exact order
   * statistic `v` if and only if the maximum is negative and in that bucket, or the bucket is
   * not past the maximum's and holds the target rank by size, or is the maximum's and the
   * target rank is not before it.
   */
  lemma {:induction false} ReportBucketExactly(xs: seq<real>, k: nat, v: real, u: real, max: real)
    requires IsRanked(xs, k, v) && IsRanked(Sizes(xs), k, u) && IsMax(xs, max)
    ensures var b, m := Bucket(v), Bucket(max);
      Bucket(Report(u, max)) == b <==>
        if max < 0.0 then m == b
        else b <= m && InFirst(xs, b) < k && (m == b || k <= InFirst(xs, b + 1))
  {
    RankedSizeIsNotNegative(xs, k, u);
    ReportBucket(u, max);
    SizeRankExactly(xs, k, u, Bucket(v));
    SizeRankExactly(xs, k, u, Bucket(v) + 1);
  }

  /** Negative samples that are filed beyond bucket `b`. */
  function NegativesBeyond(xs: seq<real>, b: nat): nat {
    if xs == [] then 0 else NegativesBeyond(xs[..|xs| - 1], b) + One(xs[|xs| - 1] < 0.0 && Bucket(xs[|xs| - 1]) > b)
  }

  /** Samples that are negative or filed up to bucket `b`: those not above it by value. */
  function NotAbove(xs: seq<real>, b: nat): nat {
    if xs == [] then 0 else NotAbove(xs[..|xs| - 1], b) + One(xs[|xs| - 1] < 0.0 || Bucket(xs[|xs| - 1]) <= b)
  }

  lemma {:induction false} MisfiledAddUp(xs: seq<real>, b: nat)
    ensures InFirst(xs, b + 1) + NegativesBeyond(xs, b) == NotAbove(xs, b)
  {
    if xs != [] {
      MisfiledAddUp(xs[..|xs| - 1], b);
    }
  }

  lemma {:induction false} ValueBrackets(xs: seq<real>, v: real)
    requires v >= 0.0
    ensures InFirst(xs, Bucket(v)) <= Below(xs, v) && AtMost(xs, v) <= NotAbove(xs, Bucket(v))
  {
    if xs != [] {
      var last := xs[|xs| - 1];
      ValueBrackets(xs[..|xs| - 1], v);
      if last >= 0.0 {
        if last <= v {
          BucketMonotone(last, v);
        } else {
          BucketMonotone(v, last);
        }
      }
    }
  }

  /**
   * Which negative samples break it: for a statistic that is not negative, the report leaves
   * its bucket exactly when so many negative samples are filed beyond it that the rank is not
   * reached within it, and the maximum lies beyond it too.  None filed beyond it, none broken.
   */
  lemma {:induction false} MisfiledExactly(xs: seq<real>, k: nat, v: real, u: real, max: real)
    requires IsRanked(xs, k, v) && IsRanked(Sizes(xs), k, u) && IsMax(xs, max) && v >= 0.0
    ensures var b := Bucket(v);
      && (Bucket(Report(u, max)) == b <==> Bucket(max) == b || k + NegativesBeyond(xs, b) <= NotAbove(xs, b))
      && (NegativesBeyond(xs, b) == 0 ==> Bucket(Report(u, max)) == b)
  {
    var i :| 0 <= i < |xs| && xs[i] == v;
    BucketMonotone(v, max);
    ReportBucketExactly(xs, k, v, u, max);
    ValueBrackets(xs, v);
    MisfiledAddUp(xs, Bucket(v));
  }

  /** A negative sample is filed by its size, so the report can miss the exact value's bucket. */
  lemma {:induction false} NegativeSampleMisfiled()
    ensures var xs := [-3.0, 1.0];
      IsRanked(xs, 1, -3.0) && IsRanked(Sizes(xs), 1, 1.0) && Bucket(Report(1.0, 1.0)) != Bucket(-3.0)
  {
    var xs := [-3.0, 1.0];
    assert xs[..1] == [-3.0] && xs[..1][..0] == [];
    assert xs[0] in xs;
    assert Sizes(xs[..1]) == [3.0] && Sizes(xs) == [3.0, 1.0];
    var sizes := Sizes(xs);
    assert sizes[..1] == [3.0] && sizes[..1][..0] == [] && sizes[1] in sizes;
    assert Below(sizes[..1], 1.0) == 0 && AtMost(sizes[..1], 1.0) == 0;
    assert Edge(0) == 1.0;
  }
}
