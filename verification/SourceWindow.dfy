/** The rolling window of one source: a ring of sixty one-second buckets, measured
    against the whole history of recorded spans. */
module SourceWindow {
  const WINDOW: nat := 60

  datatype Bucket = Bucket(accepted: int, rejected: int, errors: int, bytes: int)

  const EMPTY := Bucket(0, 0, 0, 0)

  datatype Event = Event(sec: nat, accepted: bool, rejected: bool, isError: bool, bytes: int)

  function Add(a: Bucket, b: Bucket): Bucket
  {
    Bucket(a.accepted + b.accepted, a.rejected + b.rejected, a.errors + b.errors, a.bytes + b.bytes)
  }

  /** The weight of one event. */
  function Weight(e: Event): Bucket
  {
    Bucket(if e.accepted then 1 else 0,
           if e.rejected then 1 else 0,
           if e.accepted && e.isError then 1 else 0,
           if e.accepted then e.bytes else 0)
  }

  /** The total weight of the events after second `lo` up to second `hi`. */
  function Between(history: seq<Event>, lo: int, hi: int): Bucket
  {
    if history == [] then EMPTY
    else
      var rest, last := Between(history[..|history| - 1], lo, hi), history[|history| - 1];
      if lo < last.sec <= hi then Add(rest, Weight(last)) else rest
  }

  function InSecond(history: seq<Event>, s: int): Bucket
  {
    Between(history, s - 1, s)
  }

  lemma {:induction false} BetweenSnoc(history: seq<Event>, e: Event, lo: int, hi: int)
    ensures Between(history + [e], lo, hi) ==
      if lo < e.sec <= hi then Add(Between(history, lo, hi), Weight(e)) else Between(history, lo, hi)
  {
    assert (history + [e])[..|history|] == history;
  }

  lemma {:induction false} NothingBetween(history: seq<Event>, lo: int, hi: int)
    requires forall i :: 0 <= i < |history| ==> !(lo < history[i].sec <= hi)
    ensures Between(history, lo, hi) == EMPTY
  {
    if history != [] {
      NothingBetween(history[..|history| - 1], lo, hi);
    }
  }

  lemma {:induction false} BetweenNext(history: seq<Event>, lo: int, hi: int)
    requires lo <= hi
    ensures Between(history, lo, hi + 1) == Add(Between(history, lo, hi), InSecond(history, hi + 1))
  {
    if history != [] {
      BetweenNext(history[..|history| - 1], lo, hi);
    }
  }

  /** The slot of a second. */
  function Slot(s: int): (i: nat)
    ensures i < WINDOW
  {
    s % 60
  }

  /** The one second of the window up to `last` that has slot `i`. */
  function SecondOf(last: int, i: nat): (s: int)
    requires i < WINDOW
    ensures last - WINDOW < s <= last && Slot(s) == i
  {
    last - Slot(last - i)
  }

  lemma OneSecondPerSlot(a: int, b: int, last: int)
    requires Slot(a) == Slot(b) && last - WINDOW < a <= last && last - WINDOW < b <= last
    ensures a == b
  {
  }

  lemma SecondOfSlot(last: int, s: int)
    requires last - WINDOW < s <= last
    ensures SecondOf(last, Slot(s)) == s
  {
    OneSecondPerSlot(SecondOf(last, Slot(s)), s, last);
  }

  lemma SecondOfNext(last: int, i: nat)
    requires i < WINDOW && i != Slot(last + 1)
    ensures SecondOf(last + 1, i) == SecondOf(last, i)
  {
    OneSecondPerSlot(SecondOf(last + 1, i), SecondOf(last, i), last);
  }

  ghost predicate SlotHolds(ring: seq<Bucket>, history: seq<Event>, last: int, i: nat)
    requires |ring| == WINDOW && i < WINDOW
  {
    ring[i] == InSecond(history, SecondOf(last, i))
  }

  /** Each slot holds the total of its second in the window up to `last`. */
  ghost predicate Holds(ring: seq<Bucket>, history: seq<Event>, last: int)
  {
    && |ring| == WINDOW
    && (forall i :: 0 <= i < |history| ==> history[i].sec <= last)
    && (forall i :: 0 <= i < WINDOW ==> SlotHolds(ring, history, last, i))
  }

  lemma {:induction false} ClearedHolds(ring: seq<Bucket>, history: seq<Event>, last: int)
    requires Holds(ring, history, last)
    ensures Holds(ring[Slot(last + 1) := EMPTY], history, last + 1)
  {
    var now := last + 1;
    var next := ring[Slot(now) := EMPTY];
    SecondOfSlot(now, now);
    NothingBetween(history, last, now);
    forall i | 0 <= i < WINDOW
      ensures SlotHolds(next, history, now, i)
    {
      assert SlotHolds(ring, history, last, i);
      if i != Slot(now) {
        SecondOfNext(last, i);
      }
    }
  }

  lemma {:induction false} InSecondSnoc(history: seq<Event>, e: Event, s: int)
    ensures InSecond(history + [e], s)
      == if e.sec == s then Add(InSecond(history, s), Weight(e)) else InSecond(history, s)
  {
    BetweenSnoc(history, e, s - 1, s);
  }

  lemma {:induction false} CountedHolds(ring: seq<Bucket>, history: seq<Event>, e: Event)
    requires Holds(ring, history, e.sec)
    ensures Holds(ring[Slot(e.sec) := Add(ring[Slot(e.sec)], Weight(e))], history + [e], e.sec)
  {
    var next := ring[Slot(e.sec) := Add(ring[Slot(e.sec)], Weight(e))];
    SecondOfSlot(e.sec, e.sec);
    forall i | 0 <= i < WINDOW
      ensures SlotHolds(next, history + [e], e.sec, i)
    {
      assert SlotHolds(ring, history, e.sec, i);
      InSecondSnoc(history, e, SecondOf(e.sec, i));
    }
  }

  /** A second inside the window reads from its slot. */
  lemma {:induction false} SlotRead(ring: seq<Bucket>, history: seq<Event>, last: int, s: int)
    requires Holds(ring, history, last) && last - WINDOW < s <= last
    ensures ring[Slot(s)] == InSecond(history, s)
  {
    var i := Slot(s);
    SecondOfSlot(last, s);
    assert SlotHolds(ring, history, last, i);
  }

  /** No second after the last event has any. */
  lemma {:induction false} NothingAfter(history: seq<Event>, last: int, s: int)
    requires last < s && forall i :: 0 <= i < |history| ==> history[i].sec <= last
    ensures InSecond(history, s) == EMPTY
  {
    NothingBetween(history, s - 1, s);
  }

  /** The total up to a second, from the total up to the one before and the ring. */
  lemma {:induction false} TotalNext(ring: seq<Bucket>, history: seq<Event>, last: int, lo: int, s: int)
    requires Holds(ring, history, last) && last - WINDOW < s && lo < s
    ensures Between(history, lo, s) ==
      if s <= last then Add(Between(history, lo, s - 1), ring[Slot(s)]) else Between(history, lo, s - 1)
  {
    BetweenNext(history, lo, s - 1);
    if s <= last {
      SlotRead(ring, history, last, s);
    } else {
      NothingAfter(history, last, s);
    }
  }

  /** What the ring holds for the seconds after `lo` up to `hi`. */
  function Read(ring: seq<Bucket>, last: int, lo: int, hi: int): Bucket
    requires |ring| == WINDOW
    decreases hi - lo
  {
    if hi <= lo then EMPTY
    else
      var before := Read(ring, last, lo, hi - 1);
      if hi <= last then Add(before, ring[Slot(hi)]) else before
  }

  lemma {:induction false} ReadIsBetween(ring: seq<Bucket>, history: seq<Event>, last: int, lo: int, hi: int)
    requires Holds(ring, history, last) && last - WINDOW <= lo <= hi
    ensures Read(ring, last, lo, hi) == Between(history, lo, hi)
    decreases hi - lo
  {
    if lo == hi {
      NothingBetween(history, lo, hi);
    } else {
      ReadIsBetween(ring, history, last, lo, hi - 1);
      TotalNext(ring, history, last, lo, hi);
    }
  }

  class Entry {
    const ring: array<Bucket>
    var lastSec: nat
    ghost var history: seq<Event>

    ghost predicate Valid()
      reads this, ring
    {
      ring.Length == WINDOW && Holds(ring[..], history, lastSec)
    }

    constructor (now: nat)
      ensures Valid() && history == [] && lastSec == now && fresh(ring)
    {
      ring := new Bucket[WINDOW](_ => EMPTY);
      lastSec := now;
      history := [];
    }

    /** Advances the ring to the event's second, clearing what it passes, and counts. */
    method Record(e: Event)
      requires Valid() && lastSec <= e.sec
      modifies this, ring
      ensures Valid() && history == old(history) + [e] && lastSec == e.sec
      ensures var was, now := InSecond(old(history), e.sec), InSecond(history, e.sec);
        && now.accepted - was.accepted == (if e.accepted then 1 else 0)
        && now.rejected - was.rejected == (if e.rejected then 1 else 0)
        && now.errors - was.errors == (if e.accepted && e.isError then 1 else 0)
        && now.bytes - was.bytes == (if e.accepted then e.bytes else 0)
    {
      var s := lastSec;
      while s < e.sec
        invariant lastSec <= s <= e.sec && Holds(ring[..], history, s)
        invariant history == old(history)
      {
        ClearedHolds(ring[..], history, s);
        ghost var before := ring[..];
        s := s + 1;
        ring[Slot(s)] := EMPTY;
        assert ring[..] == before[Slot(s) := EMPTY];
      }
      lastSec := e.sec;
      CountedHolds(ring[..], history, e);
      var b := ring[Slot(e.sec)];
      ghost var before := ring[..];
      if e.accepted {
        b := b.(accepted := b.accepted + 1, bytes := b.bytes + e.bytes);
        if e.isError {
          b := b.(errors := b.errors + 1);
        }
      }
      if e.rejected {
        b := b.(rejected := b.rejected + 1);
      }
      ring[Slot(e.sec)] := b;
      assert ring[..] == before[Slot(e.sec) := Add(before[Slot(e.sec)], Weight(e))];
      InSecondSnoc(history, e, e.sec);
      history := history + [e];
    }

    /** The totals of the last sixty seconds, over whatever gaps and however long after
        the last event. */
    method Snapshot(now: nat) returns (totals: Bucket)
      requires Valid() && lastSec <= now
      ensures totals == Between(history, now - WINDOW, now)
    {
      totals := EMPTY;
      var s: int := now - 60;
      while s < now
        invariant now - 60 <= s <= now
        invariant totals == Read(ring[..], lastSec, now - 60, s)
      {
        s := s + 1;
        if s <= lastSec {
          totals := Add(totals, ring[Slot(s)]);
        }
      }
      ReadIsBetween(ring[..], history, lastSec, now - 60, now);
    }
  }
}
