/** Token buckets: how much a sampler or a source limiter can ever let through. */
module TokenBuckets {
  /** `lastAt` is in nanoseconds, `tokens` may be fractional. */
  datatype Bucket = Bucket(tokens: real, lastAt: int)

  function Seconds(from: int, to: int): real
  {
    (to - from) as real / 1_000_000_000.0
  }

  /** What flows into a bucket between two times. */
  function Inflow(from: int, to: int, rate: real): real
  {
    Seconds(from, to) * rate
  }

  function Refill(b: Bucket, rate: real, capacity: real, now: int): (r: Bucket)
    ensures r.tokens <= capacity && r.lastAt == now
  {
    var filled := b.tokens + Inflow(b.lastAt, now, rate);
    Bucket(if filled > capacity then capacity else filled, now)
  }

  function Take(b: Bucket, n: nat): (r: (Bucket, bool))
  {
    if b.tokens < n as real then (b, false) else (b.(tokens := b.tokens - n as real), true)
  }

  // ------------------------------------------------------------ the sampler

  /** A request for `n` tokens at a time: one for a span, a log or a metric, one per
      span for a buffered trace. */
  datatype Request = Request(now: int, n: int)

  datatype SpanInfo = SpanInfo(statusCode: int, service: string, duration: int)

  datatype Keep = Keep(errors: bool, nPlusOne: bool, slow: bool)

  class Sampler {
    const budget: int
    const keep: Keep
    var tokens: real
    var lastAt: int

    function View(): Bucket
      reads this
    {
      Bucket(tokens, lastAt)
    }

    constructor (budget: int, keep: Keep, now: int)
      ensures this.budget == budget && this.keep == keep
      ensures View() == if budget > 0 then Bucket(budget as real, now) else Bucket(0.0, 0)
    {
      this.budget, this.keep := budget, keep;
      tokens, lastAt := if budget > 0 then budget as real else 0.0, if budget > 0 then now else 0;
    }

    method ConsumeN(n: int, now: int) returns (ok: bool)
      modifies this
      ensures (View(), ok) == Serve(old(View()), budget, Request(now, n))
      ensures n <= 0 ==> ok && View() == old(View())
      ensures n > 0 ==> lastAt == now && (if ok then tokens >= 0.0 else tokens < n as real)
    {
      if n <= 0 {
        return true;
      }
      tokens := tokens + Seconds(lastAt, now) * budget as real;
      lastAt := now;
      if tokens > budget as real {
        tokens := budget as real;
      }
      if tokens < n as real {
        return false;
      }
      tokens := tokens - n as real;
      return true;
    }

    method DecideSpan(statusCode: int, now: int) returns (ok: bool)
      modifies this
      ensures budget == 0 || (keep.errors && statusCode == 2) ==> ok && View() == old(View())
      ensures !(budget == 0 || (keep.errors && statusCode == 2)) ==>
        (View(), ok) == Serve(old(View()), budget, Request(now, 1))
    {
      if budget == 0 || (keep.errors && statusCode == 2) {
        return true;
      }
      ok := ConsumeN(1, now);
    }

    /** A whole buffered trace is kept or dropped together. */
    method DecideTrace(spans: seq<SpanInfo>, hasN1: bool, p95: map<string, int>, now: int) returns (ok: bool)
      modifies this
      ensures budget == 0 || Exempt(keep, spans, hasN1, p95) ==> ok && View() == old(View())
      ensures budget != 0 && !Exempt(keep, spans, hasN1, p95) ==>
        (View(), ok) == Serve(old(View()), budget, Request(now, |spans|))
    {
      if keep.errors {
        for i := 0 to |spans|
          invariant forall k :: 0 <= k < i ==> spans[k].statusCode != 2
        {
          if spans[i].statusCode == 2 {
            return true;
          }
        }
      }
      if keep.nPlusOne && hasN1 {
        return true;
      }
      if keep.slow {
        for i := 0 to |spans|
          invariant forall k :: 0 <= k < i ==> !IsSlow(spans[k], p95)
        {
          if IsSlow(spans[i], p95) {
            return true;
          }
        }
      }
      if budget == 0 {
        return true;
      }
      ok := ConsumeN(|spans|, now);
    }
  }

  predicate IsSlow(s: SpanInfo, p95: map<string, int>)
  {
    s.service in p95 && p95[s.service] > 0 && s.duration > 2 * p95[s.service]
  }

  /** Some always-keep signal bypasses the budget. */
  predicate Exempt(keep: Keep, spans: seq<SpanInfo>, hasN1: bool, p95: map<string, int>)
  {
    || (keep.errors && exists k :: 0 <= k < |spans| && spans[k].statusCode == 2)
    || (keep.nPlusOne && hasN1)
    || (keep.slow && exists k :: 0 <= k < |spans| && IsSlow(spans[k], p95))
  }

  /** A trace bypasses the budget if and only if a signal to be kept is among its spans: an
      error, a query repeated many times, or a span that took more than twice the known
      95th percentile of its service. */
  lemma {:induction false} ExemptExactlyWhen(keep: Keep, spans: seq<SpanInfo>, hasN1: bool, p95: map<string, int>)
    ensures Exempt(keep, spans, hasN1, p95) <==>
      || (keep.errors && exists s :: s in spans && s.statusCode == 2)
      || (keep.nPlusOne && hasN1)
      || (keep.slow && exists s :: s in spans && s.service in p95 && 0 < 2 * p95[s.service] < s.duration)
  {
  }

  /** One request to a bucket with this inflow per second and this capacity. */
  function Draw(b: Bucket, rate: real, capacity: real, r: Request): (Bucket, bool)
  {
    if r.n <= 0 then (b, true) else Take(Refill(b, rate, capacity, r.now), r.n)
  }

  /** The bucket after a run of requests, and the tokens charged for the granted ones. */
  function DrawAll(b: Bucket, rate: real, capacity: real, rs: seq<Request>): (Bucket, real)
  {
    if rs == [] then (b, 0.0)
    else
      var (before, charged) := DrawAll(b, rate, capacity, rs[..|rs| - 1]);
      var r := rs[|rs| - 1];
      var (after, ok) := Draw(before, rate, capacity, r);
      (after, charged + Charge(ok, r))
  }

  /** A sampler's bucket holds a second of its budget. */
  function Serve(b: Bucket, budget: int, r: Request): (Bucket, bool)
  {
    Draw(b, budget as real, budget as real, r)
  }

  function Run(b: Bucket, budget: int, rs: seq<Request>): (Bucket, real)
  {
    DrawAll(b, budget as real, budget as real, rs)
  }

  ghost predicate TimesOrdered(b: Bucket, rs: seq<Request>)
  {
    && (forall i :: 0 <= i < |rs| ==> b.lastAt <= rs[i].now)
    && (forall i, j :: 0 <= i < j < |rs| ==> rs[i].now <= rs[j].now)
  }

  ghost predicate InBounds(b: Bucket, budget: int)
  {
    0.0 <= b.tokens <= budget as real
  }

  lemma {:induction false} SecondsTimesRate(from: int, mid: int, to: int, rate: real)
    ensures Seconds(from, mid) * rate + Seconds(mid, to) * rate == Seconds(from, to) * rate
  {
    assert Seconds(from, mid) + Seconds(mid, to) == Seconds(from, to);
    assert (Seconds(from, mid) + Seconds(mid, to)) * rate == Seconds(from, mid) * rate + Seconds(mid, to) * rate;
  }

  lemma ProductNonNegative(x: real, y: real)
    requires x >= 0.0 && y >= 0.0
    ensures x * y >= 0.0
  {
  }

  /** One request: the level stays within bounds, and what is charged and left is at
      most what was there and has flowed in since. */
  lemma {:induction false} ServeBound(b: Bucket, budget: int, r: Request)
    requires budget >= 0 && InBounds(b, budget) && b.lastAt <= r.now
    ensures var (after, ok) := Serve(b, budget, r);
      && InBounds(after, budget) && after.lastAt <= r.now
      && after.tokens + Charge(ok, r)
         <= b.tokens + Seconds(b.lastAt, after.lastAt) * budget as real
  {
    ProductNonNegative(Seconds(b.lastAt, r.now), budget as real);
  }

  /** What has been charged since `start` and is left is at most a full bucket and the
      inflow since. */
  ghost predicate Paid(budget: int, start: int, b: Bucket, charged: real)
  {
    && start <= b.lastAt && InBounds(b, budget)
    && b.tokens + charged <= budget as real + Seconds(start, b.lastAt) * budget as real
  }

  function Charge(ok: bool, r: Request): real
  {
    if ok && r.n > 0 then r.n as real else 0.0
  }

  lemma {:induction false} PaidFirst(b: Bucket, budget: int, start: int, r: Request)
    requires budget >= 0 && InBounds(b, budget) && b.lastAt <= r.now && start <= r.now && r.n > 0
    ensures var (after, ok) := Serve(b, budget, r); Paid(budget, start, after, Charge(ok, r))
  {
    ServeBound(b, budget, r);
    ProductNonNegative(Seconds(start, r.now), budget as real);
  }

  lemma {:induction false} PaidNext(b: Bucket, budget: int, start: int, charged: real, r: Request)
    requires budget >= 0 && Paid(budget, start, b, charged) && b.lastAt <= r.now
    ensures var (after, ok) := Serve(b, budget, r); Paid(budget, start, after, charged + Charge(ok, r))
  {
    ServeBound(b, budget, r);
    var after := Serve(b, budget, r).0;
    SecondsTimesRate(start, b.lastAt, after.lastAt, budget as real);
  }

  /** Until the first request for a token the bucket is not touched. */
  lemma {:induction false} RunBound(b: Bucket, budget: int, rs: seq<Request>)
    requires budget >= 0 && InBounds(b, budget) && TimesOrdered(b, rs) && rs != []
    ensures var (after, charged) := Run(b, budget, rs);
      && after.lastAt <= rs[|rs| - 1].now
      && ((after, charged) == (b, 0.0) || Paid(budget, rs[0].now, after, charged))
  {
    var before, r := rs[..|rs| - 1], rs[|rs| - 1];
    var (mid, charged) := Run(b, budget, before);
    if before != [] {
      RunBound(b, budget, before);
    }
    if (mid, charged) != (b, 0.0) {
      PaidNext(mid, budget, rs[0].now, charged, r);
    } else if r.n > 0 {
      PaidFirst(b, budget, rs[0].now, r);
    }
  }

  lemma {:induction false} PaidBounds(budget: int, start: int, b: Bucket, charged: real, last: int)
    requires budget >= 0 && Paid(budget, start, b, charged) && b.lastAt <= last
    ensures charged <= budget as real + Seconds(start, last) * budget as real
  {
    ProductNonNegative(Seconds(b.lastAt, last), budget as real);
    SecondsTimesRate(start, b.lastAt, last, budget as real);
  }

  lemma {:induction false} RunInBounds(b: Bucket, budget: int, rs: seq<Request>)
    requires budget >= 0 && InBounds(b, budget) && TimesOrdered(b, rs)
    ensures InBounds(Run(b, budget, rs).0, budget)
  {
    if rs != [] {
      RunBound(b, budget, rs);
    }
  }

  /** Over any window of requests that spans T seconds, the tokens charged are at most
      the budget plus what flows in during T, whatever the bucket had gone through
      before. */
  lemma {:induction false} WindowBound(b: Bucket, budget: int, rs: seq<Request>)
    requires budget >= 0 && InBounds(b, budget) && TimesOrdered(b, rs) && rs != []
    ensures Run(b, budget, rs).1 <= budget as real + Seconds(rs[0].now, rs[|rs| - 1].now) * budget as real
  {
    RunBound(b, budget, rs);
    var (after, charged) := Run(b, budget, rs);
    if (after, charged) != (b, 0.0) {
      PaidBounds(budget, rs[0].now, after, charged, rs[|rs| - 1].now);
    } else {
      ProductNonNegative(Seconds(rs[0].now, rs[|rs| - 1].now), budget as real);
    }
  }

  /** The bound is not met by refusing everything: after an idle second any request
      within the budget is granted. */
  lemma {:induction false} IdleSecondRestores(b: Bucket, budget: int, r: Request)
    requires InBounds(b, budget) && 0 < r.n <= budget && r.now - b.lastAt >= 1_000_000_000
    ensures Serve(b, budget, r) == (Bucket(budget as real - r.n as real, r.now), true)
  {
    var elapsed := Seconds(b.lastAt, r.now);
    assert elapsed >= 1.0;
    ProductNonNegative(elapsed - 1.0, budget as real);
    assert (elapsed - 1.0) * budget as real == elapsed * budget as real - budget as real;
  }

  // ------------------------------------------------------------ exactly what is granted

  /** What would be left at `now` if the bucket had been as it was at the start of the run
      and had lost nothing since. */
  function LeftOfStart(b: Bucket, rate: real, capacity: real, rs: seq<Request>, now: int): real
  {
    b.tokens + Inflow(b.lastAt, now, rate) - DrawAll(b, rate, capacity, rs).1
  }

  /** The same if it had been full at request `j`. */
  function LeftOfFull(b: Bucket, rate: real, capacity: real, rs: seq<Request>, j: nat, now: int): real
    requires j <= |rs|
  {
    var at := if j < |rs| then rs[j].now else now;
    capacity + Inflow(at, now, rate)
    - (DrawAll(b, rate, capacity, rs).1 - DrawAll(b, rate, capacity, rs[..j]).1)
  }

  /** The request `j` touches the bucket. */
  predicate Draws(rs: seq<Request>, j: nat)
    requires j <= |rs|
  {
    j == |rs| || rs[j].n > 0
  }

  /** No window of the run has less than `x` left at `now`. */
  ghost predicate EveryWindowHolds(b: Bucket, rate: real, capacity: real, rs: seq<Request>, now: int, x: real)
  {
    && x <= LeftOfStart(b, rate, capacity, rs, now)
    && forall j: nat :: j <= |rs| && Draws(rs, j) ==> x <= LeftOfFull(b, rate, capacity, rs, j, now)
  }

  /** Some window has just `x` left. */
  ghost predicate SomeWindowHas(b: Bucket, rate: real, capacity: real, rs: seq<Request>, now: int, x: real)
  {
    || x == LeftOfStart(b, rate, capacity, rs, now)
    || exists j: nat :: j <= |rs| && Draws(rs, j) && x == LeftOfFull(b, rate, capacity, rs, j, now)
  }

  /** The level of the bucket before a request at `now`. */
  function LevelAt(b: Bucket, rate: real, capacity: real, rs: seq<Request>, now: int): real
  {
    Refill(DrawAll(b, rate, capacity, rs).0, rate, capacity, now).tokens
  }

  lemma InflowAdds(from: int, mid: int, to: int, rate: real)
    ensures Inflow(from, mid, rate) + Inflow(mid, to, rate) == Inflow(from, to, rate)
  {
    SecondsTimesRate(from, mid, to, rate);
  }

  lemma NoInflow(now: int, rate: real)
    ensures Inflow(now, now, rate) == 0.0
  {
  }

  /** What a request takes at its time. */
  function Taken(b: Bucket, rate: real, capacity: real, rs: seq<Request>, r: Request): real
  {
    Charge(LevelAt(b, rate, capacity, rs, r.now) >= r.n as real, r)
  }

  lemma {:induction false} DrawNext(b: Bucket, rate: real, capacity: real, rs: seq<Request>, r: Request)
    requires r.n > 0
    ensures DrawAll(b, rate, capacity, rs + [r]).0
      == Bucket(LevelAt(b, rate, capacity, rs, r.now) - Taken(b, rate, capacity, rs, r), r.now)
    ensures DrawAll(b, rate, capacity, rs + [r]).1
      == DrawAll(b, rate, capacity, rs).1 + Taken(b, rate, capacity, rs, r)
  {
    assert (rs + [r])[..|rs|] == rs;
  }

  lemma {:induction false} StartLater(b: Bucket, rate: real, capacity: real, rs: seq<Request>, r: Request, now: int)
    requires r.n > 0
    ensures LeftOfStart(b, rate, capacity, rs + [r], now)
      == LeftOfStart(b, rate, capacity, rs, r.now) + Inflow(r.now, now, rate) - Taken(b, rate, capacity, rs, r)
  {
    var x, y, z := Inflow(b.lastAt, r.now, rate), Inflow(r.now, now, rate), Inflow(b.lastAt, now, rate);
    var d, e := DrawAll(b, rate, capacity, rs).1, DrawAll(b, rate, capacity, rs + [r]).1;
    assert e == d + Taken(b, rate, capacity, rs, r) by {
      DrawNext(b, rate, capacity, rs, r);
    }
    assert z == x + y by {
      InflowAdds(b.lastAt, r.now, now, rate);
    }
    assert LeftOfStart(b, rate, capacity, rs + [r], now) == b.tokens + z - e;
    assert LeftOfStart(b, rate, capacity, rs, r.now) == b.tokens + x - d;
  }

  lemma {:induction false} FullLater(b: Bucket, rate: real, capacity: real, rs: seq<Request>, j: nat, r: Request,
                                     now: int)
    requires j <= |rs| && r.n > 0
    ensures LeftOfFull(b, rate, capacity, rs + [r], j, now)
      == LeftOfFull(b, rate, capacity, rs, j, r.now) + Inflow(r.now, now, rate) - Taken(b, rate, capacity, rs, r)
  {
    var at := if j < |rs| then rs[j].now else r.now;
    var x, y, z := Inflow(at, r.now, rate), Inflow(r.now, now, rate), Inflow(at, now, rate);
    var d, e := DrawAll(b, rate, capacity, rs).1, DrawAll(b, rate, capacity, rs + [r]).1;
    var f := DrawAll(b, rate, capacity, rs[..j]).1;
    assert e == d + Taken(b, rate, capacity, rs, r) by {
      DrawNext(b, rate, capacity, rs, r);
    }
    assert z == x + y by {
      InflowAdds(at, r.now, now, rate);
    }
    assert LeftOfFull(b, rate, capacity, rs + [r], j, now) == capacity + z - (e - f) by {
      assert (rs + [r])[..j] == rs[..j] && (rs + [r])[j].now == at;
    }
    assert LeftOfFull(b, rate, capacity, rs, j, r.now) == capacity + x - (d - f);
  }

  /** A request for nothing changes nothing. */
  lemma {:induction false} LeftSame(b: Bucket, rate: real, capacity: real, rs: seq<Request>, j: nat, r: Request,
                                    now: int)
    requires j <= |rs| && r.n <= 0
    ensures var all := rs + [r];
      && DrawAll(b, rate, capacity, all) == DrawAll(b, rate, capacity, rs)
      && LeftOfStart(b, rate, capacity, all, now) == LeftOfStart(b, rate, capacity, rs, now)
      && (j < |rs| ==> LeftOfFull(b, rate, capacity, all, j, now) == LeftOfFull(b, rate, capacity, rs, j, now))
  {
    var all := rs + [r];
    assert all[..|rs|] == rs && all[..j] == rs[..j];
    assert j < |rs| ==> all[j] == rs[j];
  }

  /** The level after a request, at a later time. */
  lemma {:induction false} LevelLater(b: Bucket, rate: real, capacity: real, before: seq<Request>, r: Request, now: int)
    requires r.n > 0
    ensures var x := LevelAt(b, rate, capacity, before, r.now)
                     + Inflow(r.now, now, rate) - Taken(b, rate, capacity, before, r);
      LevelAt(b, rate, capacity, before + [r], now) == if x > capacity then capacity else x
  {
    DrawNext(b, rate, capacity, before, r);
  }

  /** A window that is just being opened. */
  lemma {:induction false} NewWindow(b: Bucket, rate: real, capacity: real, rs: seq<Request>, now: int)
    ensures LeftOfFull(b, rate, capacity, rs, |rs|, now) == capacity && Draws(rs, |rs|)
  {
    assert rs[..|rs|] == rs;
    NoInflow(now, rate);
  }

  lemma {:induction false} WindowsHoldNext(b: Bucket, rate: real, capacity: real, before: seq<Request>, r: Request,
                                           now: int)
    requires r.n > 0
    requires EveryWindowHolds(b, rate, capacity, before, r.now, LevelAt(b, rate, capacity, before, r.now))
    ensures EveryWindowHolds(b, rate, capacity, before + [r], now, LevelAt(b, rate, capacity, before + [r], now))
  {
    var rs := before + [r];
    LevelLater(b, rate, capacity, before, r, now);
    StartLater(b, rate, capacity, before, r, now);
    forall j: nat | j <= |rs| && Draws(rs, j)
      ensures LevelAt(b, rate, capacity, rs, now) <= LeftOfFull(b, rate, capacity, rs, j, now)
    {
      if j <= |before| {
        assert Draws(before, j);
        FullLater(b, rate, capacity, before, j, r, now);
      } else {
        NewWindow(b, rate, capacity, rs, now);
      }
    }
  }

  lemma {:induction false} SomeWindowNext(b: Bucket, rate: real, capacity: real, before: seq<Request>, r: Request,
                                          now: int)
    requires r.n > 0
    requires SomeWindowHas(b, rate, capacity, before, r.now, LevelAt(b, rate, capacity, before, r.now))
    ensures SomeWindowHas(b, rate, capacity, before + [r], now, LevelAt(b, rate, capacity, before + [r], now))
  {
    var rs := before + [r];
    var was := LevelAt(b, rate, capacity, before, r.now);
    LevelLater(b, rate, capacity, before, r, now);
    NewWindow(b, rate, capacity, rs, now);
    if was == LeftOfStart(b, rate, capacity, before, r.now) {
      StartLater(b, rate, capacity, before, r, now);
    } else {
      var j: nat :| j <= |before| && Draws(before, j) && was == LeftOfFull(b, rate, capacity, before, j, r.now);
      FullLater(b, rate, capacity, before, j, r, now);
      assert Draws(rs, j);
    }
  }

  /** The level of the bucket is what the window with the least left has. */
  lemma {:induction false} LevelExact(b: Bucket, rate: real, capacity: real, rs: seq<Request>, now: int)
    ensures EveryWindowHolds(b, rate, capacity, rs, now, LevelAt(b, rate, capacity, rs, now))
    ensures SomeWindowHas(b, rate, capacity, rs, now, LevelAt(b, rate, capacity, rs, now))
  {
    if rs == [] {
      NewWindow(b, rate, capacity, rs, now);
    } else {
      var before, r := rs[..|rs| - 1], rs[|rs| - 1];
      assert rs == before + [r];
      if r.n > 0 {
        LevelExact(b, rate, capacity, before, r.now);
        WindowsHoldNext(b, rate, capacity, before, r, now);
        SomeWindowNext(b, rate, capacity, before, r, now);
      } else {
        LevelExact(b, rate, capacity, before, now);
        LevelSame(b, rate, capacity, before, r, now);
      }
    }
  }

  lemma {:induction false} LevelSame(b: Bucket, rate: real, capacity: real, before: seq<Request>, r: Request, now: int)
    requires r.n <= 0
    requires EveryWindowHolds(b, rate, capacity, before, now, LevelAt(b, rate, capacity, before, now))
    requires SomeWindowHas(b, rate, capacity, before, now, LevelAt(b, rate, capacity, before, now))
    ensures var rs := before + [r];
      && EveryWindowHolds(b, rate, capacity, rs, now, LevelAt(b, rate, capacity, rs, now))
      && SomeWindowHas(b, rate, capacity, rs, now, LevelAt(b, rate, capacity, rs, now))
  {
    var rs := before + [r];
    var level := LevelAt(b, rate, capacity, before, now);
    LeftSame(b, rate, capacity, before, 0, r, now);
    assert rs[..|rs|] == rs && before[..|before|] == before;
    forall j: nat | j <= |rs| && Draws(rs, j)
      ensures level <= LeftOfFull(b, rate, capacity, rs, j, now)
    {
      if j < |before| {
        LeftSame(b, rate, capacity, before, j, r, now);
        assert Draws(before, j);
      } else {
        assert Draws(before, |before|);
      }
    }
    if level != LeftOfStart(b, rate, capacity, before, now) {
      var j: nat :| j <= |before| && Draws(before, j) && level == LeftOfFull(b, rate, capacity, before, j, now);
      if j < |before| {
        LeftSame(b, rate, capacity, before, j, r, now);
        assert Draws(rs, j);
      } else {
        assert Draws(rs, |rs|);
      }
    }
  }

  /** Exactly when a request is granted, after any run of requests: if what every window
      that ends with it has left is enough, be it from the start of the run on or from a
      full bucket at an earlier request on. So nothing is refused that the inflow has paid
      for, and nothing is granted that it has not. */
  lemma {:induction false} GrantedExactlyWhen(b: Bucket, rate: real, capacity: real, rs: seq<Request>, r: Request)
    requires r.n > 0
    ensures Draw(DrawAll(b, rate, capacity, rs).0, rate, capacity, r).1
      <==> EveryWindowHolds(b, rate, capacity, rs, r.now, r.n as real)
  {
    LevelExact(b, rate, capacity, rs, r.now);
  }

  /** For a sampler, whose bucket fills by the budget in a second and holds no more. */
  lemma {:induction false} SampledExactlyWhen(b: Bucket, budget: int, rs: seq<Request>, r: Request)
    requires r.n > 0
    ensures Serve(Run(b, budget, rs).0, budget, r).1
      <==> EveryWindowHolds(b, budget as real, budget as real, rs, r.now, r.n as real)
  {
    GrantedExactlyWhen(b, budget as real, budget as real, rs, r);
  }
}
