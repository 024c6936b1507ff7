/** Cumulative histograms as intervals, and interpolated percentiles. */
module Histograms {
  import opened Wrappers

  /** One snapshot of a series. */
  datatype Point = Point(count: Option<nat>, sum: Option<real>, buckets: seq<nat>, startNs: int)

  datatype Interval = Interval(count: nat, sum: real, buckets: seq<nat>)

  function Count(p: Point): nat
  {
    if p.count.Some? then p.count.value else 0
  }

  function SumOf(p: Point): real
  {
    if p.sum.Some? then p.sum.value else 0.0
  }

  function Whole(p: Point): Interval
  {
    Interval(Count(p), SumOf(p), p.buckets)
  }

  predicate BucketsGrow(a: seq<nat>, b: seq<nat>)
  {
    |a| == |b| && forall k :: 0 <= k < |a| ==> a[k] <= b[k]
  }

  /** The series started over between two snapshots, as far as they can show. */
  predicate Reset(previous: Point, current: Point)
  {
    || previous.count.None? || previous.sum.None? || current.count.None? || current.sum.None?
    || Count(current) < Count(previous) || SumOf(current) < SumOf(previous)
    || (current.startNs != 0 && current.startNs != previous.startNs)
    || !BucketsGrow(previous.buckets, current.buckets)
  }

  function Minus(b: seq<nat>, a: seq<nat>): (d: seq<nat>)
    requires BucketsGrow(a, b)
    ensures |d| == |b| && forall k :: 0 <= k < |b| ==> d[k] == b[k] - a[k]
  {
    seq(|b|, k requires 0 <= k < |b| => b[k] - a[k])
  }

  /** What snapshot `i` adds to the one before it. */
  function IntervalAt(points: seq<Point>, i: nat, cumulative: bool): Interval
    requires i < |points|
  {
    if !cumulative || i == 0 || Reset(points[i - 1], points[i]) then Whole(points[i])
    else Interval(Count(points[i]) - Count(points[i - 1]), SumOf(points[i]) - SumOf(points[i - 1]),
                  Minus(points[i].buckets, points[i - 1].buckets))
  }

  method HistogramInterval(points: seq<Point>, index: nat, cumulative: bool) returns (r: Interval)
    requires index < |points|
    ensures r == IntervalAt(points, index, cumulative)
  {
    var current := points[index];
    var count, sum, buckets := Count(current), SumOf(current), current.buckets;
    if !cumulative || index == 0 {
      return Interval(count, sum, buckets);
    }
    var previous := points[index - 1];
    if previous.count.None? || previous.sum.None? || current.count.None? || current.sum.None?
       || count < previous.count.value || sum < previous.sum.value
       || (current.startNs != 0 && current.startNs != previous.startNs)
       || |buckets| != |previous.buckets| {
      return Interval(count, sum, buckets);
    }
    for i := 0 to |buckets|
      invariant |buckets| == |current.buckets|
      invariant forall k :: 0 <= k < i ==>
        previous.buckets[k] <= current.buckets[k] && buckets[k] == current.buckets[k] - previous.buckets[k]
      invariant forall k :: i <= k < |buckets| ==> buckets[k] == current.buckets[k]
    {
      if buckets[i] < previous.buckets[i] {
        return Interval(count, sum, current.buckets);
      }
      buckets := buckets[i := buckets[i] - previous.buckets[i]];
    }
    assert buckets == Minus(current.buckets, previous.buckets);
    return Interval(count - previous.count.value, sum - previous.sum.value, buckets);
  }

  // ------------------------------------------------------------ what an interval means

  /** Both snapshots tell a count and a sum, over as many buckets. */
  predicate Comparable(previous: Point, current: Point)
  {
    && previous.count.Some? && previous.sum.Some? && current.count.Some? && current.sum.Some?
    && |previous.buckets| == |current.buckets|
  }

  /** Nothing has become less, and the series has not been given another start. */
  predicate GoesOn(previous: Point, current: Point)
    requires Comparable(previous, current)
  {
    && previous.count.value <= current.count.value && previous.sum.value <= current.sum.value
    && (forall k :: 0 <= k < |current.buckets| ==> previous.buckets[k] <= current.buckets[k])
    && (current.startNs == 0 || current.startNs == previous.startNs)
  }

  /** An interval of a cumulative series is the difference to the snapshot before if that
      can be told and the series goes on, and the whole snapshot if not. */
  lemma {:induction false} IntervalExactlyWhen(points: seq<Point>, i: nat)
    requires 0 < i < |points|
    ensures var r, previous, current := IntervalAt(points, i, true), points[i - 1], points[i];
      if Comparable(previous, current) && GoesOn(previous, current)
      then
        && r.count + previous.count.value == current.count.value
        && r.sum + previous.sum.value == current.sum.value
        && |r.buckets| == |current.buckets|
        && forall k :: 0 <= k < |r.buckets| ==> r.buckets[k] + previous.buckets[k] == current.buckets[k]
      else
        && r.count == (if current.count.Some? then current.count.value else 0)
        && r.sum == (if current.sum.Some? then current.sum.value else 0.0)
        && r.buckets == current.buckets
  {
  }

  /** The first interval of any series, and every one of a series that is not cumulative,
      is the whole snapshot. */
  lemma {:induction false} IntervalIsWhole(points: seq<Point>, i: nat, cumulative: bool)
    requires i < |points| && (!cumulative || i == 0)
    ensures var r, current := IntervalAt(points, i, cumulative), points[i];
      && r.count == (if current.count.Some? then current.count.value else 0)
      && r.sum == (if current.sum.Some? then current.sum.value else 0.0)
      && r.buckets == current.buckets
  {
  }

  // ------------------------------------------------------------ conservation

  function Total(counts: seq<nat>): nat
  {
    if counts == [] then 0 else Total(counts[..|counts| - 1]) + counts[|counts| - 1]
  }

  lemma {:induction false} TotalMinus(a: seq<nat>, b: seq<nat>)
    requires BucketsGrow(a, b)
    ensures Total(b) == Total(a) + Total(Minus(b, a))
  {
    if a != [] {
      var n := |a| - 1;
      TotalMinus(a[..n], b[..n]);
      assert Minus(b, a)[..n] == Minus(b[..n], a[..n]);
    }
  }

  /** If the buckets of every snapshot add up to its count, so do those of every
      interval; and an interval never exceeds its snapshot. */
  lemma {:induction false} IntervalsAddUp(points: seq<Point>, i: nat, cumulative: bool)
    requires i < |points|
    requires forall k :: 0 <= k < |points| ==> Total(points[k].buckets) == Count(points[k])
    ensures var r := IntervalAt(points, i, cumulative);
      Total(r.buckets) == r.count <= Count(points[i]) && BucketsGrow(r.buckets, points[i].buckets)
  {
    if cumulative && i > 0 && !Reset(points[i - 1], points[i]) {
      TotalMinus(points[i - 1].buckets, points[i].buckets);
    }
  }

  function BucketAt(buckets: seq<nat>, b: nat): nat
  {
    if b < |buckets| then buckets[b] else 0
  }

  /** Sums over the intervals of a cumulative series. */
  function IntervalCounts(points: seq<Point>): nat
  {
    if points == [] then 0
    else IntervalCounts(points[..|points| - 1]) + IntervalAt(points, |points| - 1, true).count
  }

  function IntervalSums(points: seq<Point>): real
  {
    if points == [] then 0.0
    else IntervalSums(points[..|points| - 1]) + IntervalAt(points, |points| - 1, true).sum
  }

  function IntervalBuckets(points: seq<Point>, b: nat): nat
  {
    if points == [] then 0
    else IntervalBuckets(points[..|points| - 1], b) + BucketAt(IntervalAt(points, |points| - 1, true).buckets, b)
  }

  /** Snapshot `i` is the last before a reset, or of the series. */
  predicate Final(points: seq<Point>, i: nat)
    requires i < |points|
  {
    i == |points| - 1 || Reset(points[i], points[i + 1])
  }

  /** The snapshots that end the segments between resets. */
  function Finals(points: seq<Point>, n: nat): seq<Point>
    requires n <= |points|
  {
    if n == 0 then [] else Finals(points, n - 1) + if Final(points, n - 1) then [points[n - 1]] else []
  }

  function Counts(ps: seq<Point>): nat
  {
    if ps == [] then 0 else Counts(ps[..|ps| - 1]) + Count(ps[|ps| - 1])
  }

  function Sums(ps: seq<Point>): real
  {
    if ps == [] then 0.0 else Sums(ps[..|ps| - 1]) + SumOf(ps[|ps| - 1])
  }

  function Buckets(ps: seq<Point>, b: nat): nat
  {
    if ps == [] then 0 else Buckets(ps[..|ps| - 1], b) + BucketAt(ps[|ps| - 1].buckets, b)
  }

  lemma FinalsTotals(ps: seq<Point>, p: Point, b: nat)
    ensures Counts(ps + [p]) == Counts(ps) + Count(p)
    ensures Sums(ps + [p]) == Sums(ps) + SumOf(p)
    ensures Buckets(ps + [p], b) == Buckets(ps, b) + BucketAt(p.buckets, b)
  {
    assert (ps + [p])[..|ps|] == ps;
  }

  /** The finals before the last snapshot are the same whether or not it is there,
      except for the snapshot just before it. */
  lemma {:induction false} FinalsOfPrefix(points: seq<Point>, n: nat)
    requires n < |points| - 1
    ensures Finals(points, n) == Finals(points[..|points| - 1], n)
  {
    if n > 0 {
      FinalsOfPrefix(points, n - 1);
    }
  }

  lemma {:induction false} FinalsShape(points: seq<Point>)
    requires |points| > 1
    ensures var n := |points| - 1; var fs := Finals(points, n - 1);
      && Finals(points[..n], n) == fs + [points[n - 1]]
      && Finals(points, n + 1) == (if Reset(points[n - 1], points[n]) then fs + [points[n - 1]] else fs) + [points[n]]
  {
    var n := |points| - 1;
    FinalsOfPrefix(points, n - 1);
    assert Final(points[..n], n - 1) && Final(points, n);
    assert Finals(points, n) == Finals(points, n - 1) + if Reset(points[n - 1], points[n]) then [points[n - 1]] else [];
  }

  /** The last interval takes the place of the snapshot before it in the finals. */
  lemma {:induction false} LastInterval(points: seq<Point>, b: nat)
    requires |points| > 1
    ensures var n := |points| - 1; var r := IntervalAt(points, n, true); var prev, last := points[n - 1], points[n];
      if Reset(prev, last) then r == Whole(last)
      else
        && r.count + Count(prev) == Count(last)
        && r.sum + SumOf(prev) == SumOf(last)
        && BucketAt(r.buckets, b) + BucketAt(prev.buckets, b) == BucketAt(last.buckets, b)
  {
  }

  /** Nothing observed is lost or counted twice: over a whole series the intervals add
      up to the final snapshots of its segments, in count, in sum and bucket by bucket. */
  lemma {:induction false} SeriesConserved(points: seq<Point>, b: nat)
    ensures var finals := Finals(points, |points|);
      && IntervalCounts(points) == Counts(finals)
      && IntervalSums(points) == Sums(finals)
      && IntervalBuckets(points, b) == Buckets(finals, b)
  {
    if |points| == 1 {
      assert points[..0] == [] && Finals(points, 1) == [] + [points[0]];
      FinalsTotals([], points[0], b);
    } else if |points| > 1 {
      var n := |points| - 1;
      SeriesConserved(points[..n], b);
      FinalsShape(points);
      LastInterval(points, b);
      var fs := Finals(points, n - 1);
      FinalsTotals(fs, points[n - 1], b);
      FinalsTotals(if Reset(points[n - 1], points[n]) then fs + [points[n - 1]] else fs, points[n], b);
    }
  }

  /** A series that goes on throughout, with one start, adds up to its last snapshot. */
  lemma {:induction false} UnbrokenAddsUp(points: seq<Point>, b: nat)
    requires points != [] && points[0].count.Some? && points[0].sum.Some?
    requires forall i :: 0 < i < |points| ==>
        Comparable(points[i - 1], points[i]) && GoesOn(points[i - 1], points[i])
    ensures var last := points[|points| - 1];
      && last.count.Some? && last.sum.Some?
      && IntervalCounts(points) == last.count.value && IntervalSums(points) == last.sum.value
      && IntervalBuckets(points, b) == BucketAt(last.buckets, b)
  {
    var n := |points| - 1;
    if n == 0 {
      assert points[..0] == [];
      IntervalIsWhole(points, 0, true);
    } else {
      UnbrokenAddsUp(points[..n], b);
      assert Comparable(points[n - 1], points[n]) && GoesOn(points[n - 1], points[n]);
      IntervalExactlyWhen(points, n);
    }
  }

  // ------------------------------------------------------------ percentiles

  /** Bucket bounds as they are reported: increasing and not negative. */
  ghost predicate Sorted(bounds: seq<real>)
  {
    && (forall i :: 0 <= i < |bounds| ==> bounds[i] >= 0.0)
    && (forall i, j :: 0 <= i <= j < |bounds| ==> bounds[i] <= bounds[j])
  }

  function Last(bounds: seq<real>): real
  {
    if bounds == [] then 0.0 else bounds[|bounds| - 1]
  }

  /** The lower end of bucket `i`. */
  function Lower(bounds: seq<real>, i: nat): real
  {
    if i == 0 || bounds == [] then 0.0 else if i <= |bounds| then bounds[i - 1] else Last(bounds)
  }

  /** The part `x` of `n` observations, as a part of the width `d`. */
  function Share(x: real, n: real, d: real): real
    requires n > 0.0
  {
    x / n * d
  }

  /** The value at `target` observations into the bucket `i`, of which `below` come
      before it. */
  function Within(bounds: seq<real>, counts: seq<nat>, target: real, i: nat, below: real): real
    requires i < |counts|
  {
    if i >= |bounds| then Last(bounds)
    else if counts[i] == 0 then bounds[i]
    else Lower(bounds, i) + Share(target - below, counts[i] as real, bounds[i] - Lower(bounds, i))
  }

  function Seek(bounds: seq<real>, counts: seq<nat>, target: real, i: nat, below: real): real
    requires i <= |counts|
    decreases |counts| - i
  {
    if i == |counts| then 0.0
    else if below + counts[i] as real >= target then Within(bounds, counts, target, i, below)
    else Seek(bounds, counts, target, i + 1, below + counts[i] as real)
  }

  /** The number of observations, as a sum that wraps at 64 bits. */
  function Observed(counts: seq<nat>): (n: nat)
    ensures n <= Total(counts)
  {
    Total(counts) % 0x1_0000_0000_0000_0000
  }

  function Scale(x: real, p: real): real
  {
    x * p
  }

  function Target(counts: seq<nat>, p: real): real
  {
    Scale(Observed(counts) as real, p)
  }

  function Percentile(bounds: seq<real>, counts: seq<nat>, p: real): real
  {
    if Observed(counts) == 0 then 0.0 else Seek(bounds, counts, Target(counts, p), 0, 0.0)
  }

  lemma WrapAdd(a: nat, b: nat)
    ensures (a % 0x1_0000_0000_0000_0000 + b) % 0x1_0000_0000_0000_0000 == (a + b) % 0x1_0000_0000_0000_0000
  {
  }

  method CountObserved(counts: seq<nat>) returns (total: nat)
    ensures total == Observed(counts) == Total(counts) % 0x1_0000_0000_0000_0000
  {
    total := 0;
    for i := 0 to |counts|
      invariant total == Observed(counts[..i])
    {
      assert counts[..i + 1][..i] == counts[..i];
      WrapAdd(Total(counts[..i]), counts[i]);
      total := (total + counts[i]) % 0x1_0000_0000_0000_0000;
    }
    assert counts[..|counts|] == counts;
  }

  method HistogramPercentile(bounds: seq<real>, counts: seq<nat>, p: real) returns (v: real)
    ensures v == Percentile(bounds, counts, p)
  {
    var total := CountObserved(counts);
    if total == 0 {
      return 0.0;
    }
    var target, below := Scale(total as real, p), 0.0;
    for i := 0 to |counts|
      invariant Seek(bounds, counts, target, 0, 0.0) == Seek(bounds, counts, target, i, below)
    {
      var next := below + counts[i] as real;
      if next >= target {
        if i >= |bounds| {
          if bounds == [] {
            return 0.0;
          }
          return bounds[|bounds| - 1];
        }
        var lo := 0.0;
        if i > 0 {
          lo := bounds[i - 1];
        }
        if counts[i] == 0 {
          return bounds[i];
        }
        assert lo == Lower(bounds, i);
        return lo + Share(target - below, counts[i] as real, bounds[i] - lo);
      }
      below := next;
    }
    return 0.0;
  }

  // ------------------------------------------------------------ their range and order

  lemma LowerGrows(bounds: seq<real>, i: nat)
    requires Sorted(bounds)
    ensures 0.0 <= Lower(bounds, i) <= Lower(bounds, i + 1) <= Last(bounds)
  {
  }

  lemma ProductBetween(f: real, d: real)
    requires 0.0 <= f <= 1.0 && d >= 0.0
    ensures 0.0 <= f * d <= d
  {
    assert (1.0 - f) * d >= 0.0;
    assert (1.0 - f) * d == d - f * d;
  }

  lemma ShareBounds(x: real, n: real, d: real)
    requires 0.0 <= x <= n && n > 0.0 && d >= 0.0
    ensures 0.0 <= Share(x, n, d) <= d
  {
    assert 0.0 <= x / n <= 1.0;
    ProductBetween(x / n, d);
  }

  lemma ShareMonotone(x: real, y: real, n: real, d: real)
    requires x <= y && n > 0.0 && d >= 0.0
    ensures Share(x, n, d) <= Share(y, n, d)
  {
    assert x / n <= y / n;
    FactorMonotone(x / n, y / n, d);
  }

  lemma FactorMonotone(f: real, g: real, d: real)
    requires f <= g && d >= 0.0
    ensures f * d <= g * d
  {
    assert (g - f) * d >= 0.0;
    assert (g - f) * d == g * d - f * d;
  }

  lemma ScaleBounds(x: real, p: real)
    requires 0.0 <= p <= 1.0 && x > 0.0
    ensures 0.0 <= Scale(x, p) <= x && (p > 0.0 ==> Scale(x, p) > 0.0) && (p == 0.0 ==> Scale(x, p) == 0.0)
  {
    ProductBetween(p, x);
    assert x * p == p * x;
  }

  lemma ScaleMonotone(x: real, p: real, q: real)
    requires x >= 0.0 && p <= q
    ensures Scale(x, p) <= Scale(x, q)
  {
    FactorMonotone(p, q, x);
    assert x * p == p * x && x * q == q * x;
  }

  /** Where in the counts the target lies: not before bucket `i`, and not beyond the end. */
  ghost predicate Ahead(counts: seq<nat>, target: real, i: nat, below: real)
    requires i <= |counts|
  {
    && (below < target || (i == 0 && below == 0.0 == target))
    && target <= below + Total(counts[i..]) as real
  }

  lemma {:induction false} TotalSplit(counts: seq<nat>, i: nat)
    requires i < |counts|
    ensures Total(counts[i..]) == counts[i] + Total(counts[i + 1..])
    ensures i + 1 == |counts| ==> Total(counts[i + 1..]) == 0
    decreases |counts|
  {
    var n := |counts| - 1;
    var rest := counts[i..];
    assert rest[..|rest| - 1] == counts[..n][i..];
    if i < n {
      TotalSplit(counts[..n], i);
      assert counts[..n][i + 1..] == counts[i + 1..][..|counts[i + 1..]| - 1];
    } else {
      assert rest[..|rest| - 1] == [] && counts[i + 1..] == [];
    }
  }

  lemma {:induction false} WithinRange(bounds: seq<real>, counts: seq<nat>, target: real, i: nat, below: real)
    requires Sorted(bounds) && i < |counts| && Ahead(counts, target, i, below) && below + counts[i] as real >= target
    ensures Lower(bounds, i) <= Within(bounds, counts, target, i, below) <= Lower(bounds, i + 1)
  {
    LowerGrows(bounds, i);
    if i < |bounds| && counts[i] > 0 {
      ShareBounds(target - below, counts[i] as real, bounds[i] - Lower(bounds, i));
    }
  }

  /** What is found from bucket `i` on lies between that bucket's lower end and the last
      bound. */
  lemma {:induction false} SeekRange(bounds: seq<real>, counts: seq<nat>, target: real, i: nat, below: real)
    requires Sorted(bounds) && i <= |counts| && Ahead(counts, target, i, below) && (i == |counts| ==> below >= target)
    requires i < |counts|
    ensures Lower(bounds, i) <= Seek(bounds, counts, target, i, below) <= Last(bounds)
    decreases |counts| - i
  {
    LowerGrows(bounds, i);
    LowerGrows(bounds, i + 1);
    if below + counts[i] as real >= target {
      WithinRange(bounds, counts, target, i, below);
    } else {
      NextAhead(counts, target, i, below);
      SeekRange(bounds, counts, target, i + 1, below + counts[i] as real);
    }
  }

  lemma {:induction false} NextAhead(counts: seq<nat>, target: real, i: nat, below: real)
    requires i < |counts| && Ahead(counts, target, i, below) && below + counts[i] as real < target
    ensures i + 1 < |counts| && Ahead(counts, target, i + 1, below + counts[i] as real)
  {
    TotalSplit(counts, i);
  }

  lemma {:induction false} WithinMonotone(bounds: seq<real>, counts: seq<nat>, t: real, u: real, i: nat, below: real)
    requires Sorted(bounds) && i < |counts| && t <= u
    requires below <= t && below + counts[i] as real >= u
    ensures Within(bounds, counts, t, i, below) <= Within(bounds, counts, u, i, below)
  {
    if i < |bounds| && counts[i] > 0 {
      LowerGrows(bounds, i);
      ShareMonotone(t - below, u - below, counts[i] as real, bounds[i] - Lower(bounds, i));
    }
  }

  lemma {:induction false} SeekMonotone(bounds: seq<real>, counts: seq<nat>, t: real, u: real, i: nat, below: real)
    requires Sorted(bounds) && i < |counts| && t <= u
    requires Ahead(counts, t, i, below) && u <= below + Total(counts[i..]) as real
    ensures Seek(bounds, counts, t, i, below) <= Seek(bounds, counts, u, i, below)
    decreases |counts| - i
  {
    var next := below + counts[i] as real;
    if next >= u {
      WithinMonotone(bounds, counts, t, u, i, below);
    } else {
      assert Ahead(counts, u, i, below);
      NextAhead(counts, u, i, below);
      if next >= t {
        WithinRange(bounds, counts, t, i, below);
        SeekRange(bounds, counts, u, i + 1, next);
      } else {
        NextAhead(counts, t, i, below);
        SeekMonotone(bounds, counts, t, u, i + 1, next);
      }
    }
  }

  lemma {:induction false} StartAhead(counts: seq<nat>, p: real)
    requires 0.0 <= p <= 1.0 && Observed(counts) != 0
    ensures |counts| > 0 && Ahead(counts, Target(counts, p), 0, 0.0)
    ensures p > 0.0 ==> Target(counts, p) > 0.0
  {
    var n := Observed(counts);
    assert counts[0..] == counts;
    assert n as real <= Total(counts) as real;
    ScaleBounds(n as real, p);
  }

  /** For sorted bounds a percentile always lies between zero and the last bound. */
  lemma {:induction false} PercentileInRange(bounds: seq<real>, counts: seq<nat>, p: real)
    requires Sorted(bounds) && 0.0 <= p <= 1.0
    ensures 0.0 <= Percentile(bounds, counts, p) <= Last(bounds)
  {
    if Observed(counts) != 0 {
      StartAhead(counts, p);
      SeekRange(bounds, counts, Target(counts, p), 0, 0.0);
    }
  }

  /** And it grows with p, across empty buckets, the overflow bucket and a total that
      has wrapped. */
  lemma {:induction false} PercentileMonotone(bounds: seq<real>, counts: seq<nat>, p: real, q: real)
    requires Sorted(bounds) && 0.0 <= p <= q <= 1.0
    ensures Percentile(bounds, counts, p) <= Percentile(bounds, counts, q)
  {
    if Observed(counts) != 0 {
      StartAhead(counts, p);
      StartAhead(counts, q);
      ScaleMonotone(Observed(counts) as real, p, q);
      SeekMonotone(bounds, counts, Target(counts, p), Target(counts, q), 0, 0.0);
    }
  }

  ghost predicate InBucket(bounds: seq<real>, counts: seq<nat>, target: real, v: real, i: nat)
    requires i < |counts|
  {
    && Total(counts[..i]) as real < target <= Total(counts[..i + 1]) as real
    && Lower(bounds, i) <= v <= Lower(bounds, i + 1)
  }

  lemma {:induction false} SeekFindsBucket(bounds: seq<real>, counts: seq<nat>, target: real, i: nat, below: real)
    requires Sorted(bounds) && i < |counts| && Ahead(counts, target, i, below)
    requires below == Total(counts[..i]) as real && below < target
    ensures exists k :: 0 <= k < |counts| && InBucket(bounds, counts, target, Seek(bounds, counts, target, i, below), k)
    decreases |counts| - i
  {
    assert counts[..i + 1][..i] == counts[..i];
    assert Total(counts[..i + 1]) == Total(counts[..i]) + counts[i];
    assert Total(counts[..i + 1]) as real == below + counts[i] as real;
    if below + counts[i] as real >= target {
      WithinRange(bounds, counts, target, i, below);
      assert InBucket(bounds, counts, target, Seek(bounds, counts, target, i, below), i);
    } else {
      NextAhead(counts, target, i, below);
      var next := below + counts[i] as real;
      SeekFindsBucket(bounds, counts, target, i + 1, next);
      var k :| 0 <= k < |counts| && InBucket(bounds, counts, target, Seek(bounds, counts, target, i + 1, next), k);
      assert InBucket(bounds, counts, target, Seek(bounds, counts, target, i, below), k);
    }
  }

  /** A percentile lies in the bucket that holds its target observation: fewer than the
      target lie in the buckets before it, and the target is reached within it. */
  lemma {:induction false} PercentileInItsBucket(bounds: seq<real>, counts: seq<nat>, p: real)
    requires Sorted(bounds) && 0.0 < p <= 1.0 && Observed(counts) != 0
    ensures exists k ::
      0 <= k < |counts| && InBucket(bounds, counts, Target(counts, p), Percentile(bounds, counts, p), k)
  {
    StartAhead(counts, p);
    assert counts[..0] == [];
    SeekFindsBucket(bounds, counts, Target(counts, p), 0, 0.0);
    var v := Seek(bounds, counts, Target(counts, p), 0, 0.0);
    var k :| 0 <= k < |counts| && InBucket(bounds, counts, Target(counts, p), v, k);
    assert InBucket(bounds, counts, Target(counts, p), Percentile(bounds, counts, p), k);
  }

  lemma ShareOfWhole(x: real, n: real, d: real)
    requires n > 0.0
    ensures Share(x, n, d) * n == x * d
  {
    assert x / n * n == x;
    assert Share(x, n, d) * n == x / n * n * d;
  }

  /** Within its bucket the percentile is interpolated: it lies as far into the bucket as
      the target lies into its observations. So it is at the lower end for none of them,
      at the upper one for all, and halfway for half. */
  lemma {:induction false} Interpolates(bounds: seq<real>, counts: seq<nat>, target: real, i: nat, below: real)
    requires i < |counts| && i < |bounds| && counts[i] > 0
    ensures var lo := if i == 0 then 0.0 else bounds[i - 1];
      (Within(bounds, counts, target, i, below) - lo) * counts[i] as real == (target - below) * (bounds[i] - lo)
  {
    ShareOfWhole(target - below, counts[i] as real, bounds[i] - Lower(bounds, i));
  }

  /** The bucket `k` that the target falls in, and the value in it. */
  ghost predicate Interpolated(bounds: seq<real>, counts: seq<nat>, target: real, v: real, k: nat)
    requires k < |counts|
  {
    && Total(counts[..k]) as real < target <= Total(counts[..k + 1]) as real
    && if k >= |bounds| then v == Last(bounds)
       else
         var lo := if k == 0 then 0.0 else bounds[k - 1];
         (v - lo) * counts[k] as real == (target - Total(counts[..k]) as real) * (bounds[k] - lo)
  }

  lemma {:induction false} SeekInterpolates(bounds: seq<real>, counts: seq<nat>, target: real, i: nat, below: real)
    requires i < |counts| && Ahead(counts, target, i, below)
    requires below == Total(counts[..i]) as real && below < target
    ensures exists k ::
      0 <= k < |counts| && Interpolated(bounds, counts, target, Seek(bounds, counts, target, i, below), k)
    decreases |counts| - i
  {
    assert counts[..i + 1][..i] == counts[..i];
    assert Total(counts[..i + 1]) == Total(counts[..i]) + counts[i];
    var next := below + counts[i] as real;
    assert Total(counts[..i + 1]) as real == next;
    if next >= target {
      if i < |bounds| {
        Interpolates(bounds, counts, target, i, below);
      }
      assert Interpolated(bounds, counts, target, Seek(bounds, counts, target, i, below), i);
    } else {
      NextAhead(counts, target, i, below);
      SeekInterpolates(bounds, counts, target, i + 1, next);
      var k :| 0 <= k < |counts| && Interpolated(bounds, counts, target, Seek(bounds, counts, target, i + 1, next), k);
      assert Interpolated(bounds, counts, target, Seek(bounds, counts, target, i, below), k);
    }
  }

  /** Exactly what a percentile is: the target observation, `p` of all, interpolated in the
      bucket that it falls in, or the last bound if that is the overflow bucket. */
  lemma {:induction false} PercentileExactly(bounds: seq<real>, counts: seq<nat>, p: real)
    requires 0.0 < p <= 1.0 && Observed(counts) != 0
    ensures var target := Observed(counts) as real * p;
      exists k :: 0 <= k < |counts| && Interpolated(bounds, counts, target, Percentile(bounds, counts, p), k)
  {
    StartAhead(counts, p);
    assert counts[..0] == [];
    SeekInterpolates(bounds, counts, Target(counts, p), 0, 0.0);
    var v := Seek(bounds, counts, Target(counts, p), 0, 0.0);
    var target := Observed(counts) as real * p;
    assert target == Target(counts, p);
    var k :| 0 <= k < |counts| && Interpolated(bounds, counts, target, v, k);
    assert v == Percentile(bounds, counts, p);
  }
}
