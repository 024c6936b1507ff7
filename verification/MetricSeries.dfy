/** In-place derivation of gauge and cumulative sum series. */
module MetricSeries {
  datatype Aggregate = Average | Minimum | Maximum

  function Sum(vs: seq<real>): real
  {
    if vs == [] then 0.0 else Sum(vs[..|vs| - 1]) + vs[|vs| - 1]
  }

  ghost predicate IsLeast(vs: seq<real>, m: real)
  {
    m in vs && forall k :: 0 <= k < |vs| ==> m <= vs[k]
  }

  ghost predicate IsGreatest(vs: seq<real>, m: real)
  {
    m in vs && forall k :: 0 <= k < |vs| ==> vs[k] <= m
  }

  /** `v` is the aggregate of the raw values. */
  ghost predicate Aggregates(vs: seq<real>, op: Aggregate, v: real)
    requires vs != []
  {
    match op
    case Average => v * |vs| as real == Sum(vs)
    case Minimum => IsLeast(vs, v)
    case Maximum => IsGreatest(vs, v)
  }

  lemma Averaged(total: real, n: nat)
    requires n > 0
    ensures total / n as real * n as real == total
  {
  }

  lemma AverageNext(raw: seq<real>, i: nat)
    requires i < |raw|
    ensures Aggregates(raw[..i + 1], Average, (Sum(raw[..i]) + raw[i]) / (i + 1) as real)
  {
    assert raw[..i + 1][..i] == raw[..i];
    Averaged(Sum(raw[..i]) + raw[i], i + 1);
  }

  lemma ExtremeNext(raw: seq<real>, op: Aggregate, i: nat, before: real)
    requires i < |raw| && op != Average && (i > 0 ==> Aggregates(raw[..i], op, before))
    ensures Aggregates(raw[..i + 1], op,
      if i > 0 && (if op.Minimum? then raw[i] > before else raw[i] < before) then before else raw[i])
  {
    assert raw[..i + 1] == raw[..i] + [raw[i]];
  }

  /** A gauge chart shows running aggregates, although each point overwrites the raw
      value that the next one is compared with. */
  method DeriveGauge(values: array<real>, op: Aggregate)
    modifies values
    ensures forall i :: 0 <= i < values.Length ==> Aggregates(old(values[..])[..i + 1], op, values[i])
  {
    ghost var raw := values[..];
    var total := 0.0;
    for i := 0 to values.Length
      invariant total == Sum(raw[..i])
      invariant forall k :: 0 <= k < i ==> Aggregates(raw[..k + 1], op, values[k])
      invariant forall k :: i <= k < values.Length ==> values[k] == raw[k]
    {
      assert raw[..i + 1][..i] == raw[..i] && raw[..i + 1][i] == raw[i];
      total := total + values[i];
      match op {
        case Average =>
          AverageNext(raw, i);
          values[i] := total / (i + 1) as real;
        case Minimum =>
          ExtremeNext(raw, op, i, if i > 0 then values[i - 1] else 0.0);
          if i > 0 && values[i] > values[i - 1] {
            values[i] := values[i - 1];
          }
        case Maximum =>
          ExtremeNext(raw, op, i, if i > 0 then values[i - 1] else 0.0);
          if i > 0 && values[i] < values[i - 1] {
            values[i] := values[i - 1];
          }
      }
    }
  }

  // ------------------------------------------------------------ cumulative sums

  /** What a cumulative value adds to an earlier one; a decrease means a restart. */
  function Delta(now: real, before: real): real
  {
    if now - before < 0.0 then now else now - before
  }

  predicate Restarted(starts: seq<int>, i: nat)
    requires 0 < i < |starts|
  {
    starts[i] != 0 && starts[i] != starts[i - 1]
  }

  /** The increments of the raw series. */
  function Increment(raw: seq<real>, starts: seq<int>, i: nat): real
    requires i < |raw| == |starts|
  {
    if i == 0 then 0.0
    else if Restarted(starts, i) then raw[i]
    else Delta(raw[i], raw[i - 1])
  }

  /** What the series is turned into: each point is compared with its predecessor after
      that has been overwritten. */
  function Derived(raw: seq<real>, starts: seq<int>, i: nat): real
    requires i < |raw| == |starts|
  {
    if i == 0 then 0.0
    else if Restarted(starts, i) then raw[i]
    else Delta(raw[i], Derived(raw, starts, i - 1))
  }

  method DeriveCumulativeSum(values: array<real>, starts: seq<int>)
    requires |starts| == values.Length
    modifies values
    ensures forall i :: 0 <= i < values.Length ==> values[i] == Derived(old(values[..]), starts, i)
    ensures values.Length > 0 ==> values[0] == 0.0
    ensures forall i :: 0 < i < values.Length ==>
      var now, shown := old(values[i]), values[i - 1];
      values[i] == if now < shown || (starts[i] != 0 && starts[i] != starts[i - 1]) then now else now - shown
  {
    ghost var raw := values[..];
    for i := 0 to values.Length
      invariant forall k :: 0 <= k < i ==> values[k] == Derived(raw, starts, k)
      invariant forall k :: i <= k < values.Length ==> values[k] == raw[k]
    {
      assert raw[i] == old(values[i]);
      if i == 0 {
        values[i] := 0.0;
        continue;
      }
      var delta := values[i] - values[i - 1];
      if delta < 0.0 || Restarted(starts, i) {
        delta := values[i];
      }
      values[i] := delta;
    }
  }

  /** A counter at 5, 7 and 10 has increased by 2 and 3, but is shown as 7 and 3. */
  lemma OverwrittenPredecessor()
    ensures var raw, starts := [5.0, 7.0, 10.0], [1, 1, 1];
      && (Increment(raw, starts, 1), Increment(raw, starts, 2)) == (2.0, 3.0)
      && (Derived(raw, starts, 1), Derived(raw, starts, 2)) == (7.0, 3.0)
  {
    var raw, starts := [5.0, 7.0, 10.0], [1, 1, 1];
    assert Derived(raw, starts, 0) == 0.0;
    assert Derived(raw, starts, 1) == 7.0;
  }

  /** Subtracting `x` instead of `y` is harmless when they are equal, when the value lies
      below both, and when one of them is zero and the value lies below the other only. */
  predicate Harmless(now: real, x: real, y: real)
  {
    x == y || (now < x && now < y) || (x == 0.0 <= now < y) || (y == 0.0 <= now < x)
  }

  lemma HarmlessExactly(now: real, x: real, y: real)
    ensures Delta(now, x) == Delta(now, y) <==> Harmless(now, x, y)
  {
  }

  lemma DerivedNext(raw: seq<real>, starts: seq<int>, i: nat)
    requires 0 < i < |raw| == |starts|
    requires Derived(raw, starts, i - 1) == Increment(raw, starts, i - 1)
    ensures Derived(raw, starts, i) == Increment(raw, starts, i) <==>
      Restarted(starts, i) || Harmless(raw[i], Increment(raw, starts, i - 1), raw[i - 1])
  {
    HarmlessExactly(raw[i], Increment(raw, starts, i - 1), raw[i - 1]);
  }

  /** The first `n` points of the chart show the increments. */
  ghost predicate ShowsIncrements(raw: seq<real>, starts: seq<int>, n: nat)
    requires n <= |raw| == |starts|
  {
    forall i :: 0 <= i < n ==> Derived(raw, starts, i) == Increment(raw, starts, i)
  }

  /** No harm comes of the overwriting before point `n`. */
  ghost predicate NoHarm(raw: seq<real>, starts: seq<int>, n: nat)
    requires n <= |raw| == |starts|
  {
    forall i :: 0 < i < n ==> Restarted(starts, i) || Harmless(raw[i], Increment(raw, starts, i - 1), raw[i - 1])
  }

  lemma ShowsNext(raw: seq<real>, starts: seq<int>, n: nat)
    requires n < |raw| == |starts|
    ensures ShowsIncrements(raw, starts, n + 1) <==>
      ShowsIncrements(raw, starts, n) && Derived(raw, starts, n) == Increment(raw, starts, n)
  {
  }

  lemma NoHarmNext(raw: seq<real>, starts: seq<int>, n: nat)
    requires 0 < n < |raw| == |starts|
    ensures NoHarm(raw, starts, n + 1) <==>
      NoHarm(raw, starts, n) && (Restarted(starts, n) || Harmless(raw[n], Increment(raw, starts, n - 1), raw[n - 1]))
  {
  }

  /** The chart of a cumulative sum shows the increments if and only if at every point
      the series has restarted, or it does no harm that the increment before it has
      taken the place of the raw value before it. */
  lemma {:induction false} DerivedExactlyWhen(raw: seq<real>, starts: seq<int>, n: nat)
    requires n <= |raw| == |starts|
    ensures ShowsIncrements(raw, starts, n) <==> NoHarm(raw, starts, n)
  {
    if n > 1 {
      var last := n - 1;
      DerivedExactlyWhen(raw, starts, last);
      ShowsNext(raw, starts, last - 1);
      ShowsNext(raw, starts, last);
      NoHarmNext(raw, starts, last);
      if Derived(raw, starts, last - 1) == Increment(raw, starts, last - 1) {
        DerivedNext(raw, starts, last);
      }
    }
  }
}
