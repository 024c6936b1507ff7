/** The per-source limiter, whose rate and burst can be changed while it runs. */
module SourceLimits {
  import opened TokenBuckets

  datatype Limiter = Limiter(rps: real, burst: int, sources: map<string, Bucket>)

  /** A burst that is not set defaults to five seconds' worth of tokens, in whole tokens
      and at least one. */
  function DefaultBurst(rps: real, burst: int): (b: int)
    ensures burst > 0 || rps <= 0.0 ==> b == burst
    ensures burst <= 0 && rps > 0.0 ==> b >= 1 && (b > 1 ==> b as real <= 5.0 * rps) && 5.0 * rps < (b + 1) as real
  {
    if burst <= 0 && rps > 0.0 then (if (rps * 5.0).Floor < 1 then 1 else (rps * 5.0).Floor) else burst
  }

  /** The first half of admitting a span, under the limiter's lock: a source seen for the
      first time gets a full bucket, and the settings in force are read. */
  function Look(l: Limiter, service: string, now: int): (m: Limiter)
    ensures service in m.sources
  {
    if service in l.sources then l
    else l.(sources := l.sources[service := Bucket(if l.rps > 0.0 then l.burst as real else 0.0, now)])
  }

  /** The second half, under the lock of the source alone, with the settings `rps` and
      `burst` that were read: whether the span is accepted. Without a rate every span is. */
  function Admit(l: Limiter, service: string, rps: real, burst: int, now: int): (r: (Limiter, bool))
    requires service in l.sources
    ensures r.0.sources.Keys == l.sources.Keys
  {
    if rps == 0.0 then (l, true)
    else
      var (after, ok) := Take(Refill(l.sources[service], rps, burst as real, now), 1);
      (l.(sources := l.sources[service := after]), ok)
  }

  predicate Effective(l: Limiter, rps: real, burst: int)
  {
    !(l.rps == rps && l.burst == DefaultBurst(rps, burst))
  }

  function Configure(l: Limiter, rps: real, burst: int, now: int): Limiter
  {
    var b := DefaultBurst(rps, burst);
    if !Effective(l, rps, burst) then l
    else Limiter(rps, b, map s | s in l.sources :: Bucket(b as real, now))
  }

  class SourceLimiter {
    var rps: real
    var burst: int
    var sources: map<string, Bucket>

    function View(): Limiter
      reads this
    {
      Limiter(rps, burst, sources)
    }

    constructor (rps: real, burst: int)
      ensures View() == Limiter(rps, DefaultBurst(rps, burst), map[])
    {
      this.rps := rps;
      this.burst := DefaultBurst(rps, burst);
      sources := map[];
    }

    method FindSource(service: string, now: int) returns (readRps: real, readBurst: int)
      modifies `sources
      ensures View() == Look(old(View()), service, now)
      ensures sources == if service in old(sources) then old(sources)
        else old(sources)[service := Bucket(if rps > 0.0 then burst as real else 0.0, now)]
      ensures readRps == rps && readBurst == burst
    {
      if service !in sources {
        sources := sources[service := Bucket(if rps > 0.0 then burst as real else 0.0, now)];
      }
      return rps, burst;
    }

    method AdmitSpan(service: string, readRps: real, readBurst: int, now: int) returns (accepted: bool)
      requires service in sources
      modifies `sources
      ensures (View(), accepted) == Admit(old(View()), service, readRps, readBurst, now)
      ensures readRps == 0.0 ==> accepted && sources == old(sources)
      ensures readRps != 0.0 && !accepted ==> service in sources && sources[service].tokens < 1.0
    {
      if readRps == 0.0 {
        return true;
      }
      var b := Refill(sources[service], readRps, readBurst as real, now);
      accepted := b.tokens >= 1.0;
      if accepted {
        b := b.(tokens := b.tokens - 1.0);
      }
      sources := sources[service := b];
    }

    /** Both halves, if nothing comes between them. */
    method AllowSpan(service: string, now: int) returns (accepted: bool)
      modifies `sources
      ensures (View(), accepted) == Admit(Look(old(View()), service, now), service, old(rps), old(burst), now)
    {
      var readRps, readBurst := FindSource(service, now);
      accepted := AdmitSpan(service, readRps, readBurst, now);
    }

    method Reconfigure(newRps: real, newBurst: int, now: int)
      modifies this
      ensures View() == Configure(old(View()), newRps, newBurst, now)
      ensures rps == newRps && burst == DefaultBurst(newRps, newBurst) && sources.Keys == old(sources).Keys
      ensures old(rps) == newRps && old(burst) == DefaultBurst(newRps, newBurst) ==> sources == old(sources)
      ensures !(old(rps) == newRps && old(burst) == DefaultBurst(newRps, newBurst)) ==>
        forall s :: s in sources ==> sources[s] == Bucket(DefaultBurst(newRps, newBurst) as real, now)
    {
      var b := DefaultBurst(newRps, newBurst);
      if rps == newRps && burst == b {
        return;
      }
      rps, burst := newRps, b;
      var todo := sources.Keys;
      while todo != {}
        invariant rps == newRps && burst == b
        invariant todo <= sources.Keys == old(sources).Keys
        invariant forall s :: s in sources && s !in todo ==> sources[s] == Bucket(b as real, now)
        decreases |todo|
      {
        var s :| s in todo;
        sources := sources[s := Bucket(b as real, now)];
        todo := todo - {s};
      }
      assert sources == (map s | s in old(sources) :: Bucket(b as real, now));
    }
  }

  // ------------------------------------------------------------ the bound

  /** The sections under a lock. A charge comes some time after its look, with the
      settings that were read then. */
  datatype Op =
    | Looks(service: string, now: int)
    | Admits(service: string, rps: real, burst: int, now: int)
    | Settings(rps: real, burst: int, now: int)

  /** The limiter after a run, the tokens that source `s` was charged in it, and how
      often the settings changed. */
  function Run(l: Limiter, ops: seq<Op>, s: string): (r: (Limiter, nat, nat))
    requires Looked(l, ops)
    ensures forall k :: Known(l, ops, k) ==> k in r.0.sources
    decreases |ops|, 1
  {
    if ops == [] then (l, 0, 0)
    else
      var (m, charged, changes) := Run(l, ops[..|ops| - 1], s);
      match ops[|ops| - 1]
      case Looks(service, now) => (Look(m, service, now), charged, changes)
      case Admits(service, rps, burst, now) =>
        var (m', ok) := Admit(m, service, rps, burst, now);
        (m', charged + if ok && rps != 0.0 && service == s then 1 else 0, changes)
      case Settings(rps, burst, now) =>
        (Configure(m, rps, burst, now), charged, changes + if Effective(m, rps, burst) then 1 else 0)
  }

  predicate Known(l: Limiter, ops: seq<Op>, service: string)
  {
    service in l.sources ||
    (ops != [] && (Known(l, ops[..|ops| - 1], service)
                   || (ops[|ops| - 1].Looks? && ops[|ops| - 1].service == service)))
  }

  /** Every source is looked up before it is charged. */
  predicate Looked(l: Limiter, ops: seq<Op>)
  {
    ops != [] ==>
      && Looked(l, ops[..|ops| - 1])
      && (ops[|ops| - 1].Admits? ==> Known(l, ops[..|ops| - 1], ops[|ops| - 1].service))
  }

  /** One burst, one more for each change of settings, and the inflow at full rate. */
  function Allowance(rate: real, capacity: real, changes: nat, from: int, to: int): real
  {
    capacity * (1 + changes) as real + Seconds(from, to) * rate
  }

  /** A source that was charged since `from` has been paid for. */
  ghost predicate Paid(l: Limiter, s: string, charged: nat, changes: nat, rate: real, capacity: real, from: int,
                       now: int)
  {
    && charged as real <= Allowance(rate, capacity, changes, from, now)
    && (s in l.sources ==> l.sources[s].lastAt <= now)
    && (charged > 0 ==>
          && s in l.sources && from <= l.sources[s].lastAt
          && l.sources[s].tokens + charged as real
             <= Allowance(rate, capacity, changes, from, l.sources[s].lastAt))
  }

  lemma {:induction false} AllowanceGrows(rate: real, capacity: real, changes: nat, from: int, a: int, b: int, r: real)
    requires r <= rate && 0.0 <= rate && a <= b
    ensures Allowance(rate, capacity, changes, from, a) + Seconds(a, b) * r
      <= Allowance(rate, capacity, changes, from, b)
    ensures Allowance(rate, capacity, changes, from, a) <= Allowance(rate, capacity, changes, from, b)
  {
    SecondsTimesRate(from, a, b, rate);
    ProductNonNegative(Seconds(a, b), rate);
    ProductNonNegative(Seconds(a, b), rate - r);
    assert Seconds(a, b) * (rate - r) == Seconds(a, b) * rate - Seconds(a, b) * r;
  }

  lemma {:induction false} AllowanceChanges(rate: real, capacity: real, changes: nat, from: int, to: int)
    ensures Allowance(rate, capacity, changes + 1, from, to) == Allowance(rate, capacity, changes, from, to) + capacity
  {
    assert (2 + changes) as real == (1 + changes) as real + 1.0;
    assert capacity * ((1 + changes) as real + 1.0) == capacity * (1 + changes) as real + capacity;
  }

  lemma {:induction false} AllowanceAtLeastCapacity(rate: real, capacity: real, changes: nat, from: int, to: int)
    requires rate >= 0.0 && capacity >= 0.0 && from <= to
    ensures Allowance(rate, capacity, changes, from, to) >= capacity
  {
    ProductNonNegative(Seconds(from, to), rate);
    ProductNonNegative(capacity, changes as real);
    assert (1 + changes) as real == 1.0 + changes as real;
    assert capacity * (1.0 + changes as real) == capacity + capacity * changes as real;
  }

  lemma {:induction false} TimePaid(l: Limiter, s: string, charged: nat, changes: nat, rate: real, capacity: real,
                                    from: int, before: int, now: int)
    requires rate >= 0.0 && before <= now && Paid(l, s, charged, changes, rate, capacity, from, before)
    ensures Paid(l, s, charged, changes, rate, capacity, from, now)
  {
    AllowanceGrows(rate, capacity, changes, from, before, now, 0.0);
  }

  lemma {:induction false} LookPaid(l: Limiter, s: string, service: string, charged: nat, changes: nat, rate: real,
                                    capacity: real, from: int, now: int)
    requires Paid(l, s, charged, changes, rate, capacity, from, now)
    ensures Paid(Look(l, service, now), s, charged, changes, rate, capacity, from, now)
  {
  }

  lemma {:induction false} AdmitPaid(l: Limiter, s: string, service: string, rps: real, burst: int, charged: nat,
                                      changes: nat, rate: real, capacity: real, from: int, now: int)
    requires rps <= rate && 0.0 <= rate && burst as real <= capacity && 0.0 <= capacity && from <= now
    requires service in l.sources && Paid(l, s, charged, changes, rate, capacity, from, now)
    ensures var (m, ok) := Admit(l, service, rps, burst, now);
      Paid(m, s, charged + if ok && rps != 0.0 && service == s then 1 else 0, changes, rate, capacity, from, now)
  {
    AllowanceAtLeastCapacity(rate, capacity, changes, from, now);
    if s == service {
      AllowanceGrows(rate, capacity, changes, from, l.sources[s].lastAt, now, rps);
    }
  }

  lemma {:induction false} SettingsPaid(l: Limiter, s: string, rps: real, burst: int, charged: nat, changes: nat,
                                        rate: real, capacity: real, from: int, now: int)
    requires DefaultBurst(rps, burst) as real <= capacity && 0.0 <= capacity && from <= now
    requires Paid(l, s, charged, changes, rate, capacity, from, now)
    ensures Paid(Configure(l, rps, burst, now), s, charged,
                 changes + if Effective(l, rps, burst) then 1 else 0, rate, capacity, from, now)
  {
    AllowanceChanges(rate, capacity, changes, from, now);
  }

  /** The settings read by spans that are charged, and those made, are bounded by `rate`
      and `capacity`. */
  ghost predicate OpWithin(op: Op, rate: real, capacity: real)
  {
    match op
    case Looks(_, _) => true
    case Admits(_, rps, burst, _) => rps <= rate && burst as real <= capacity
    case Settings(rps, burst, _) => DefaultBurst(rps, burst) as real <= capacity
  }

  ghost predicate OpsWithin(ops: seq<Op>, rate: real, capacity: real, from: int)
  {
    && (forall i :: 0 <= i < |ops| ==> from <= ops[i].now && OpWithin(ops[i], rate, capacity))
    && (forall i, j :: 0 <= i < j < |ops| ==> ops[i].now <= ops[j].now)
  }

  function LastTime(ops: seq<Op>, start: int): int
  {
    if ops == [] then start else ops[|ops| - 1].now
  }

  lemma {:induction false} RunPaid(l: Limiter, ops: seq<Op>, s: string, rate: real, capacity: real, from: int)
    requires Looked(l, ops) && 0.0 <= rate && 0.0 <= capacity && OpsWithin(ops, rate, capacity, from)
    requires Paid(l, s, 0, 0, rate, capacity, from, from)
    ensures var (m, charged, changes) := Run(l, ops, s);
      Paid(m, s, charged, changes, rate, capacity, from, LastTime(ops, from))
  {
    if ops != [] {
      var before, op := ops[..|ops| - 1], ops[|ops| - 1];
      RunPaid(l, before, s, rate, capacity, from);
      var (m, charged, changes) := Run(l, before, s);
      TimePaid(m, s, charged, changes, rate, capacity, from, LastTime(before, from), op.now);
      match op
      case Looks(service, now) => LookPaid(m, s, service, charged, changes, rate, capacity, from, now);
      case Admits(service, rps, burst, now) =>
        AdmitPaid(m, s, service, rps, burst, charged, changes, rate, capacity, from, now);
      case Settings(rps, burst, now) =>
        SettingsPaid(m, s, rps, burst, charged, changes, rate, capacity, from, now);
    }
  }

  /** From any state of the limiter, whatever its past and its settings were, over any
      window of T seconds, however the two halves of spans of all sources and changes of
      the settings interleave, one source is charged at most one burst, one more for each
      effective change in the window, and what flows in during T. `rate` and `capacity`
      bound the settings that the spans charged in the window have read, even before it,
      and the bursts set in it. */
  lemma {:induction false} SourceBound(l: Limiter, ops: seq<Op>, s: string, rate: real, capacity: real, from: int)
    requires Looked(l, ops) && 0.0 <= rate && 0.0 <= capacity && OpsWithin(ops, rate, capacity, from)
    requires s in l.sources ==> l.sources[s].lastAt <= from
    ensures var (_, charged, changes) := Run(l, ops, s);
      charged as real <= Allowance(rate, capacity, changes, from, LastTime(ops, from))
  {
    AllowanceAtLeastCapacity(rate, capacity, 0, from, from);
    RunPaid(l, ops, s, rate, capacity, from);
  }

  // ------------------------------------------------------------ the level

  /** What the settings in force let a bucket hold. */
  function Fill(l: Limiter): real
  {
    if l.burst > 0 then l.burst as real else 0.0
  }

  /** The source holds at most a full bucket of the settings in force, and under a
      positive rate it is not in debt. */
  ghost predicate Sound(l: Limiter, s: string, now: int)
  {
    && (l.rps > 0.0 ==> l.burst >= 1)
    && (s in l.sources ==>
          && l.sources[s].lastAt <= now && l.sources[s].tokens <= Fill(l)
          && (l.rps > 0.0 ==> 0.0 <= l.sources[s].tokens))
  }

  /** A span of the source is charged with settings, read before they were changed, that
      do not fit those in force: a larger burst, or under a positive rate a negative rate
      or burst. */
  predicate Stale(l: Limiter, op: Op, s: string)
  {
    && op.Admits? && op.service == s && op.rps != 0.0
    && (op.burst as real > Fill(l) || (l.rps > 0.0 && (op.rps < 0.0 || op.burst < 0)))
  }

  predicate NoneStale(l: Limiter, ops: seq<Op>, s: string)
    requires Looked(l, ops)
  {
    ops != [] ==>
      && NoneStale(l, ops[..|ops| - 1], s)
      && !Stale(Run(l, ops[..|ops| - 1], s).0, ops[|ops| - 1], s)
  }

  ghost predicate Ordered(ops: seq<Op>, start: int)
  {
    && (forall i :: 0 <= i < |ops| ==> start <= ops[i].now)
    && (forall i, j :: 0 <= i < j < |ops| ==> ops[i].now <= ops[j].now)
  }

  lemma {:induction false} AdmitKeepsSound(l: Limiter, s: string, rps: real, burst: int, before: int, now: int)
    requires Sound(l, s, before) && before <= now && s in l.sources && !Stale(l, Admits(s, rps, burst, now), s)
    ensures Sound(Admit(l, s, rps, burst, now).0, s, now)
  {
    if rps > 0.0 {
      ProductNonNegative(Seconds(l.sources[s].lastAt, now), rps);
    }
  }

  lemma {:induction false} SettingsKeepSound(l: Limiter, s: string, rps: real, burst: int, before: int, now: int)
    requires Sound(l, s, before) && before <= now
    ensures Sound(Configure(l, rps, burst, now), s, now)
  {
  }

  /** Whatever the settings were before, a source holds at most a full bucket of the burst
      now in force, and under a positive rate it is never in debt, in every run in which
      none of its spans is charged with stale settings. */
  lemma {:induction false} RunKeepsLevel(rps: real, burst: int, ops: seq<Op>, s: string, start: int)
    requires Looked(Limiter(rps, DefaultBurst(rps, burst), map[]), ops) && Ordered(ops, start)
    requires NoneStale(Limiter(rps, DefaultBurst(rps, burst), map[]), ops, s)
    ensures Sound(Run(Limiter(rps, DefaultBurst(rps, burst), map[]), ops, s).0, s, LastTime(ops, start))
  {
    if ops != [] {
      var before, op := ops[..|ops| - 1], ops[|ops| - 1];
      RunKeepsLevel(rps, burst, before, s, start);
      var l := Run(Limiter(rps, DefaultBurst(rps, burst), map[]), before, s).0;
      match op
      case Looks(service, now) =>
      case Admits(service, r, b, now) =>
        if service == s {
          AdmitKeepsSound(l, s, r, b, LastTime(before, start), now);
        }
      case Settings(r, b, now) => SettingsKeepSound(l, s, r, b, LastTime(before, start), now);
    }
  }

  /** The first half of a span, a change to a small burst, and ten seconds later the second
      half: the bucket is left far above what the settings in force let it hold. */
  lemma {:induction false} StaleSpanOverfills(start: int)
    ensures var l := Limiter(1000.0, 5000, map[]);
      var ops := [Looks("a", start), Settings(10.0, 50, start), Admits("a", 1000.0, 5000, start + 10_000_000_000)];
      && Looked(l, ops) && Run(l, ops, "a").0.sources == map["a" := Bucket(4999.0, start + 10_000_000_000)]
      && Run(l, ops, "a").0.burst == 50
  {
    var l := Limiter(1000.0, 5000, map[]);
    var o0, o1 := Looks("a", start), Settings(10.0, 50, start);
    var ops := [o0, o1, Admits("a", 1000.0, 5000, start + 10_000_000_000)];
    assert ops[..2] == [o0, o1] && [o0, o1][..1] == [o0] && [o0][..0] == [];
    assert Known(l, [o0], "a") && Known(l, [o0, o1], "a");
    assert Looked(l, []) && Looked(l, [o0]) && Looked(l, [o0, o1]);
    assert Run(l, [o0], "a").0 == Limiter(1000.0, 5000, map["a" := Bucket(5000.0, start)]);
    assert Run(l, [o0, o1], "a").0 == Limiter(10.0, 50, map["a" := Bucket(50.0, start)]);
    assert Seconds(start, start + 10_000_000_000) == 10.0;
  }

  // ------------------------------------------------------------ exactly what is accepted

  /** Spans only, all charged with the same settings. */
  predicate Steady(ops: seq<Op>, rps: real, burst: int)
  {
    forall k :: 0 <= k < |ops| ==> !ops[k].Settings? && (ops[k].Admits? ==> ops[k].rps == rps && ops[k].burst == burst)
  }

  /** The spans of one source, as requests for a token each. */
  function SpansOf(ops: seq<Op>, s: string): seq<Request>
  {
    if ops == [] then []
    else
      var last := ops[|ops| - 1];
      SpansOf(ops[..|ops| - 1], s)
      + if last.Admits? && last.service == s then [Request(last.now, 1)] else []
  }

  lemma {:induction false} DrawSnoc(b: Bucket, rate: real, capacity: real, rs: seq<Request>, r: Request)
    ensures var (before, charged) := DrawAll(b, rate, capacity, rs); var (after, ok) := Draw(before, rate, capacity, r);
      DrawAll(b, rate, capacity, rs + [r]) == (after, charged + TokenBuckets.Charge(ok, r))
  {
    assert (rs + [r])[..|rs|] == rs;
  }

  lemma {:induction false} AdmitDraws(l: Limiter, s: string, rps: real, burst: int, now: int)
    requires s in l.sources && rps != 0.0
    ensures var (m, ok) := Admit(l, s, rps, burst, now);
      (m.sources[s], ok) == Draw(l.sources[s], rps, burst as real, Request(now, 1))
  {
  }

  /** What one section means for the source: a request, or nothing. */
  lemma {:induction false} SteadyStep(l: Limiter, s: string, op: Op, charged: nat, b: Bucket, rs: seq<Request>,
                                      rps: real, burst: int)
    requires s in l.sources && rps != 0.0 && !op.Settings?
    requires op.Admits? ==> op.rps == rps && op.burst == burst && op.service in l.sources
    requires (l.sources[s], charged as real) == DrawAll(b, rps, burst as real, rs)
    ensures if op.Admits? && op.service == s
      then
        var (m, ok) := Admit(l, s, rps, burst, op.now);
        (m.sources[s], (charged + if ok then 1 else 0) as real)
        == DrawAll(b, rps, burst as real, rs + [Request(op.now, 1)])
      else if op.Admits? then Admit(l, op.service, rps, burst, op.now).0.sources[s] == l.sources[s]
      else s in Look(l, op.service, op.now).sources && Look(l, op.service, op.now).sources[s] == l.sources[s]
  {
    if op.Admits? && op.service == s {
      DrawSnoc(b, rps, burst as real, rs, Request(op.now, 1));
      AdmitDraws(l, s, rps, burst, op.now);
    }
  }

  /** While the settings stay, the spans of other sources do not matter: a source's bucket
      goes through the requests of its own spans. */
  lemma {:induction false} SteadyDraws(l: Limiter, ops: seq<Op>, s: string, rps: real, burst: int)
    requires Looked(l, ops) && Steady(ops, rps, burst) && rps != 0.0 && s in l.sources
    ensures var (m, charged, _) := Run(l, ops, s);
      && s in m.sources
      && (m.sources[s], charged as real) == DrawAll(l.sources[s], rps, burst as real, SpansOf(ops, s))
  {
    if ops != [] {
      var before, op := ops[..|ops| - 1], ops[|ops| - 1];
      SteadyDraws(l, before, s, rps, burst);
      var (m, charged, _) := Run(l, before, s);
      SteadyStep(m, s, op, charged, l.sources[s], SpansOf(before, s), rps, burst);
      if !(op.Admits? && op.service == s) {
        assert SpansOf(before, s) + [] == SpansOf(before, s);
      }
    }
  }

  /** Exactly when a span is accepted, while the settings stay: if each window that ends
      with it, from the start on or from a full bucket at an earlier span of its source on,
      has a token left of its stock and inflow. */
  lemma {:induction false} AcceptedExactlyWhen(l: Limiter, ops: seq<Op>, s: string, rps: real, burst: int, now: int)
    requires Looked(l, ops) && Steady(ops, rps, burst) && rps != 0.0 && s in l.sources
    ensures s in Run(l, ops, s).0.sources
    ensures Admit(Run(l, ops, s).0, s, rps, burst, now).1
      <==> EveryWindowHolds(l.sources[s], rps, burst as real, SpansOf(ops, s), now, 1.0)
  {
    SteadyDraws(l, ops, s, rps, burst);
    GrantedExactlyWhen(l.sources[s], rps, burst as real, SpansOf(ops, s), Request(now, 1));
  }
}
