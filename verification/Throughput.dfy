/** The process-wide throughput counter: a ring of ten tagged one-second buckets. */
module ThroughputCounter {
  const WINDOW: nat := 10

  datatype Counts = Counts(spans: int, logs: int, metrics: int)

  const NONE := Counts(0, 0, 0)

  datatype Kind = Spans | Logs | Metrics

  datatype Event = Event(sec: nat, kind: Kind, n: int)

  datatype Bucket = Bucket(sec: nat, counts: Counts)

  function Add(a: Counts, b: Counts): Counts
  {
    Counts(a.spans + b.spans, a.logs + b.logs, a.metrics + b.metrics)
  }

  function Weight(e: Event): Counts
  {
    match e.kind
    case Spans => Counts(e.n, 0, 0)
    case Logs => Counts(0, e.n, 0)
    case Metrics => Counts(0, 0, e.n)
  }

  /** The slot of a second. */
  function Slot(s: int): (i: nat)
    ensures i < WINDOW
  {
    s % 10
  }

  lemma OneSecondPerSlot(a: int, b: int, now: int)
    requires Slot(a) == Slot(b) && now - WINDOW < a <= now && now - WINDOW < b <= now
    ensures a == b
  {
  }

  /** The total weight of the events in the given seconds. */
  function Over(history: seq<Event>, secs: set<int>): Counts
  {
    if history == [] then NONE
    else
      var rest, last := Over(history[..|history| - 1], secs), history[|history| - 1];
      if last.sec in secs then Add(rest, Weight(last)) else rest
  }

  /** The total weight of the events of the ten seconds up to `now`. */
  function Recent(history: seq<Event>, now: int): Counts
  {
    if history == [] then NONE
    else
      var rest, last := Recent(history[..|history| - 1], now), history[|history| - 1];
      if now - WINDOW < last.sec <= now then Add(rest, Weight(last)) else rest
  }

  function InSecond(history: seq<Event>, s: int): Counts
  {
    Over(history, {s})
  }

  lemma {:induction false} InSecondSnoc(history: seq<Event>, e: Event, s: int)
    ensures InSecond(history + [e], s)
      == if e.sec == s then Add(InSecond(history, s), Weight(e)) else InSecond(history, s)
  {
    assert (history + [e])[..|history|] == history;
  }

  lemma {:induction false} NothingIn(history: seq<Event>, secs: set<int>)
    requires forall i :: 0 <= i < |history| ==> history[i].sec !in secs
    ensures Over(history, secs) == NONE
  {
    if history != [] {
      NothingIn(history[..|history| - 1], secs);
    }
  }

  lemma {:induction false} OverOneMore(history: seq<Event>, secs: set<int>, s: int)
    requires s !in secs
    ensures Over(history, secs + {s}) == Add(Over(history, secs), InSecond(history, s))
  {
    if history != [] {
      OverOneMore(history[..|history| - 1], secs, s);
    }
  }

  /** The only second of the window with the slot `i`. */
  function SlotSecond(now: int, i: nat): (s: int)
    requires i < WINDOW
    ensures now - WINDOW < s <= now && Slot(s) == i
  {
    now - Slot(now - i)
  }

  /** The seconds of the window whose slots are below `n`. */
  ghost function SlotSeconds(now: int, n: nat): (secs: set<int>)
    requires n <= WINDOW
    ensures forall s :: s in secs ==> now - WINDOW < s <= now && Slot(s) < n
  {
    if n == 0 then {} else SlotSeconds(now, n - 1) + {SlotSecond(now, n - 1)}
  }

  lemma {:induction false} SlotSecondsComplete(now: int, n: nat, s: int)
    requires n <= WINDOW && now - WINDOW < s <= now && Slot(s) < n
    ensures s in SlotSeconds(now, n)
  {
    if Slot(s) == n - 1 {
      OneSecondPerSlot(s, SlotSecond(now, n - 1), now);
    } else {
      SlotSecondsComplete(now, n - 1, s);
    }
  }

  lemma {:induction false} AllSlotsAreRecent(history: seq<Event>, now: int)
    ensures Over(history, SlotSeconds(now, WINDOW)) == Recent(history, now)
  {
    if history != [] {
      AllSlotsAreRecent(history[..|history| - 1], now);
      var s := history[|history| - 1].sec;
      if now - WINDOW < s <= now {
        SlotSecondsComplete(now, WINDOW, s);
      }
    }
  }

  // ------------------------------------------------------------ the ring

  /** A slot holds the totals of the second it is tagged with, which it is the slot of
      unless it was never used. */
  ghost predicate SlotHolds(b: Bucket, history: seq<Event>, i: nat)
  {
    if Slot(b.sec) == i then b.counts == InSecond(history, b.sec) else b == Bucket(0, NONE)
  }

  ghost predicate Holds(buckets: seq<Bucket>, history: seq<Event>, last: nat)
  {
    && |buckets| == WINDOW
    && (forall i :: 0 <= i < WINDOW ==> SlotHolds(buckets[i], history, i) && buckets[i].sec <= last)
    // every second with events has its slot, or made way for a later one
    && (forall k :: 0 <= k < |history| ==> history[k].sec <= buckets[Slot(history[k].sec)].sec)
  }

  ghost predicate IsPeak(history: seq<Event>, peak: int)
  {
    && (forall s: int :: InSecond(history, s).spans <= peak)
    && (peak == 0 || exists s: int :: InSecond(history, s).spans == peak)
  }

  function Touched(b: Bucket, sec: nat): Bucket
  {
    if b.sec != sec then Bucket(sec, NONE) else b
  }

  lemma {:induction false} TouchedCounts(buckets: seq<Bucket>, history: seq<Event>, last: nat, sec: nat)
    requires Holds(buckets, history, last) && last <= sec
    ensures Touched(buckets[Slot(sec)], sec).counts == InSecond(history, sec)
  {
    if buckets[Slot(sec)].sec != sec {
      assert forall k :: 0 <= k < |history| ==> history[k].sec != sec;
      NothingIn(history, {sec as int});
    } else {
      assert SlotHolds(buckets[Slot(sec)], history, Slot(sec));
    }
  }

  lemma {:induction false} AddedHolds(buckets: seq<Bucket>, history: seq<Event>, last: nat, e: Event)
    requires Holds(buckets, history, last) && last <= e.sec
    ensures Holds(buckets[Slot(e.sec) := Bucket(e.sec, InSecond(history + [e], e.sec))], history + [e], e.sec)
  {
    var i := Slot(e.sec);
    var next := buckets[i := Bucket(e.sec, InSecond(history + [e], e.sec))];
    forall m | 0 <= m < WINDOW && m != i
      ensures SlotHolds(next[m], history + [e], m)
    {
      assert SlotHolds(buckets[m], history, m);
      InSecondSnoc(history, e, buckets[m].sec);
    }
  }

  /** What slot `i` contributes to the window. */
  lemma {:induction false} SlotRead(buckets: seq<Bucket>, history: seq<Event>, last: nat, now: int, i: nat)
    requires Holds(buckets, history, last) && last <= now && i < WINDOW
    ensures InSecond(history, SlotSecond(now, i)) ==
      if now - WINDOW < buckets[i].sec <= now then buckets[i].counts else NONE
  {
    var b, s := buckets[i], SlotSecond(now, i);
    assert SlotHolds(b, history, i);
    if now - WINDOW < b.sec <= now && Slot(b.sec) == i {
      OneSecondPerSlot(b.sec, s, now);
    } else {
      assert forall k :: 0 <= k < |history| && Slot(history[k].sec) == i ==> history[k].sec <= b.sec <= now;
      NothingIn(history, {s});
    }
  }

  // ------------------------------------------------------------ the peak

  lemma {:induction false} PeakAfter(history: seq<Event>, e: Event, peak: int)
    requires IsPeak(history, peak) && e.n > 0
    ensures var now := InSecond(history + [e], e.sec).spans;
      IsPeak(history + [e], if e.kind.Spans? && now > peak then now else peak)
  {
    var h := history + [e];
    forall s: int
      ensures InSecond(h, s).spans <= if s == e.sec then InSecond(h, e.sec).spans else peak
    {
      InSecondSnoc(history, e, s);
      assert InSecond(history, s).spans <= peak;
    }
    InSecondSnoc(history, e, e.sec);
    assert InSecond(history, e.sec).spans <= peak;
    if peak != 0 {
      var s: int :| InSecond(history, s).spans == peak;
      InSecondSnoc(history, e, s);
    }
  }

  class Counter {
    const buckets: array<Bucket>
    var peak: int
    ghost var history: seq<Event>
    ghost var last: nat

    ghost predicate Valid()
      reads this, buckets
    {
      buckets.Length == WINDOW && Holds(buckets[..], history, last) && IsPeak(history, peak)
    }

    constructor ()
      ensures Valid() && fresh(buckets) && history == [] && last == 0
    {
      buckets := new Bucket[WINDOW](_ => Bucket(0, NONE));
      peak, history, last := 0, [], 0;
    }

    /** Counts `e.n` spans, logs or metrics in the current second. A number that is not
        positive counts as nothing at all. */
    method Count(e: Event)
      requires Valid() && last <= e.sec
      modifies this, buckets
      ensures Valid()
      ensures history == if e.n <= 0 then old(history) else old(history) + [e]
      ensures e.n > 0 ==>
        var was, now := InSecond(old(history), e.sec), InSecond(history, e.sec);
        now == match e.kind
          case Spans => was.(spans := was.spans + e.n)
          case Logs => was.(logs := was.logs + e.n)
          case Metrics => was.(metrics := was.metrics + e.n)
    {
      if e.n <= 0 {
        return;
      }
      var i := Slot(e.sec);
      TouchedCounts(buckets[..], history, last, e.sec);
      AddedHolds(buckets[..], history, last, e);
      InSecondSnoc(history, e, e.sec);
      PeakAfter(history, e, peak);
      ghost var before := buckets[..];
      var counts := Touched(buckets[i], e.sec).counts;
      match e.kind {
        case Spans =>
          counts := counts.(spans := counts.spans + e.n);
          if counts.spans > peak {
            peak := counts.spans;
          }
        case Logs => counts := counts.(logs := counts.logs + e.n);
        case Metrics => counts := counts.(metrics := counts.metrics + e.n);
      }
      buckets[i] := Bucket(e.sec, counts);
      assert buckets[..] == before[i := Bucket(e.sec, counts)];
      history, last := history + [e], e.sec;
    }

    /** The totals of the last ten seconds, from which the rates are computed, and the
        largest number of spans that any single second has ever seen. */
    method Throughput(now: nat) returns (totals: Counts, peakSpans: int)
      requires Valid() && last <= now
      ensures totals == Recent(history, now)
      ensures IsPeak(history, peakSpans)
    {
      totals := NONE;
      NothingIn(history, SlotSeconds(now, 0));
      for i := 0 to WINDOW
        invariant totals == Over(history, SlotSeconds(now, i))
      {
        SlotRead(buckets[..], history, last, now, i);
        OverOneMore(history, SlotSeconds(now, i), SlotSecond(now, i));
        var b := buckets[i];
        if now - WINDOW < b.sec && b.sec <= now {
          totals := Add(totals, b.counts);
        }
      }
      AllSlotsAreRecent(history, now);
      peakSpans := peak;
    }
  }
}
