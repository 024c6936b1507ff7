/** The fixed open-addressed table that throttles metric cardinality evaluations. */
module ThrottleTable {
  const SLOTS: nat := 4096
  const MINUTE: int := 60_000_000_000

  /** Key 0 marks a slot that was never used. */
  datatype Slot = Slot(key: nat, at: int)

  /** The slot that the probe for `key` visits at `offset`; the sum wraps at 64 bits. */
  function Probe(key: nat, offset: nat): (i: nat)
    ensures i < SLOTS
  {
    ((key + offset) % 0x1_0000_0000_0000_0000) % 4096
  }

  /** The offset at which the probe for `key` visits slot `i`. */
  function OffsetOf(key: nat, i: nat): (offset: nat)
    requires i < SLOTS
    ensures offset < SLOTS
  {
    (i - key) % 4096
  }

  lemma ProbeVisits(key: nat, i: nat)
    requires i < SLOTS
    ensures Probe(key, OffsetOf(key, i)) == i
  {
    var offset := OffsetOf(key, i);
    assert (key + offset) % 4096 == i;
    assert (key + offset) % 0x1_0000_0000_0000_0000 % 4096 == (key + offset) % 4096;
  }

  /** The slot was filled within the last minute. */
  predicate Recent(s: Slot, now: int)
  {
    now >= s.at && now - s.at < MINUTE
  }

  predicate Free(s: Slot, now: int)
  {
    s.key == 0 || !Recent(s, now)
  }

  ghost predicate HasKey(t: seq<Slot>, key: nat)
  {
    exists i :: 0 <= i < |t| && t[i].key == key
  }

  /** No key occupies two slots. */
  ghost predicate Unique(t: seq<Slot>)
  {
    forall i, j :: 0 <= i < j < |t| && t[i].key != 0 ==> t[i].key != t[j].key
  }

  /** One call, as a relation: it is accepted exactly if the key's own slot is not
      recent or, without one, if some slot is free; and it rewrites that slot only. */
  ghost predicate Step(t: seq<Slot>, key: nat, now: int, accepted: bool, t': seq<Slot>)
  {
    if accepted then
      exists i :: 0 <= i < |t| && t' == t[i := Slot(key, now)]
                  && (if HasKey(t, key) then t[i].key == key && !Recent(t[i], now) else Free(t[i], now))
    else
      && t' == t
      && (if HasKey(t, key) then exists i :: 0 <= i < |t| && t[i].key == key && Recent(t[i], now)
          else forall i :: 0 <= i < |t| ==> !Free(t[i], now))
  }

  class Table {
    const slots: array<Slot>

    ghost predicate Valid()
      reads this, slots
    {
      slots.Length == SLOTS && Unique(slots[..])
    }

    constructor ()
      ensures Valid() && fresh(slots)
      ensures forall i :: 0 <= i < SLOTS ==> slots[i] == Slot(0, 0)
    {
      slots := new Slot[SLOTS](_ => Slot(0, 0));
    }

    method Schedule(key: nat, now: int) returns (accepted: bool)
      requires Valid() && key != 0
      modifies slots
      ensures Valid()
      ensures Step(old(slots[..]), key, now, accepted, slots[..])
      ensures forall i :: 0 <= i < SLOTS && old(slots[i].key) == key ==>
        (accepted <==> now < old(slots[i].at) || now - old(slots[i].at) >= MINUTE)
    {
      ghost var t := slots[..];
      var available: int := -1;
      var offset := 0;
      while offset < SLOTS
        invariant offset <= SLOTS && slots[..] == t
        invariant forall o :: 0 <= o < offset ==> slots[Probe(key, o)].key != key
        invariant -1 <= available < SLOTS
        invariant available < 0 ==> forall o :: 0 <= o < offset ==> !Free(slots[Probe(key, o)], now)
        invariant available >= 0 ==> Free(slots[available], now)
      {
        var i := Probe(key, offset);
        var s := slots[i];
        if s.key == key {
          assert t[i].key == key;
          if Recent(s, now) {
            return false;
          }
          slots[i] := Slot(key, now);
          ReplaceKeepsUnique(t, i, key, now);
          assert slots[..] == t[i := Slot(key, now)];
          return true;
        }
        if available < 0 && Free(s, now) {
          available := i;
        }
        offset := offset + 1;
      }
      ProbedAll(t, key, now, available < 0);
      if available < 0 {
        return false;
      }
      slots[available] := Slot(key, now);
      ReplaceKeepsUnique(t, available, key, now);
      assert slots[..] == t[available := Slot(key, now)];
      return true;
    }
  }

  lemma ReplaceKeepsUnique(t: seq<Slot>, i: nat, key: nat, now: int)
    requires Unique(t) && i < |t| && (t[i].key == key || !HasKey(t, key))
    ensures Unique(t[i := Slot(key, now)])
  {
  }

  /** The probe visits every slot, so what it did not find is nowhere. */
  lemma ProbedAll(t: seq<Slot>, key: nat, now: int, none: bool)
    requires |t| == SLOTS
    requires forall o :: 0 <= o < SLOTS ==> t[Probe(key, o)].key != key
    requires none ==> forall o :: 0 <= o < SLOTS ==> !Free(t[Probe(key, o)], now)
    ensures !HasKey(t, key)
    ensures none ==> forall i :: 0 <= i < |t| ==> !Free(t[i], now)
  {
    forall i | 0 <= i < |t|
      ensures t[i].key != key && (none ==> !Free(t[i], now))
    {
      ProbeVisits(key, i);
      assert t[Probe(key, OffsetOf(key, i))] == t[i];
    }
  }

  // ------------------------------------------------------------ runs

  datatype Call = Call(key: nat, now: int, accepted: bool)

  /** A run of calls on a table that starts unused, while the clock does not go back. */
  ghost predicate IsRun(tables: seq<seq<Slot>>, calls: seq<Call>)
  {
    && |tables| == |calls| + 1
    && |tables[0]| == SLOTS && (forall i :: 0 <= i < SLOTS ==> tables[0][i].key == 0)
    && (forall n :: 0 <= n < |calls| ==>
          calls[n].key != 0 && Step(tables[n], calls[n].key, calls[n].now, calls[n].accepted, tables[n + 1]))
    && (forall m, n :: 0 <= m < n < |calls| ==> calls[m].now <= calls[n].now)
  }

  /** When each key was last accepted. */
  function LastAccepted(calls: seq<Call>): map<nat, int>
  {
    if calls == [] then map[]
    else
      var before, c := LastAccepted(calls[..|calls| - 1]), calls[|calls| - 1];
      if c.accepted then before[c.key := c.now] else before
  }

  /** The table remembers every acceptance of the last minute: a key that it holds has
      its last time there, and one that it lost was accepted a minute or more ago. */
  ghost predicate Refines(t: seq<Slot>, last: map<nat, int>, clock: int)
  {
    && |t| == SLOTS && Unique(t)
    && (forall i :: 0 <= i < |t| && t[i].key != 0 ==> t[i].key in last && last[t[i].key] == t[i].at)
    && (forall k :: k in last ==> last[k] <= clock && k != 0 && (HasKey(t, k) || clock - last[k] >= MINUTE))
  }

  lemma {:induction false} HasKeyAfter(t: seq<Slot>, i: nat, key: nat, now: int, k: nat)
    requires i < |t| && k != t[i].key
    ensures HasKey(t, k) ==> HasKey(t[i := Slot(key, now)], k)
  {
    if HasKey(t, k) {
      var j :| 0 <= j < |t| && t[j].key == k;
      assert t[i := Slot(key, now)][j].key == k;
    }
  }

  lemma {:induction false} AcceptRefines(t: seq<Slot>, last: map<nat, int>, clock: int, i: nat, key: nat, now: int)
    requires Refines(t, last, clock) && clock <= now && key != 0 && i < |t|
    requires if HasKey(t, key) then t[i].key == key else Free(t[i], now)
    ensures Refines(t[i := Slot(key, now)], last[key := now], now)
  {
    var t', last' := t[i := Slot(key, now)], last[key := now];
    ReplaceKeepsUnique(t, i, key, now);
    forall k | k in last'
      ensures last'[k] <= now && k != 0 && (HasKey(t', k) || now - last'[k] >= MINUTE)
    {
      if k == key {
        assert t'[i].key == key;
      } else if k != t[i].key {
        HasKeyAfter(t, i, key, now, k);
      }
    }
  }

  lemma {:induction false} RunRefines(tables: seq<seq<Slot>>, calls: seq<Call>, n: nat, clock: int)
    requires IsRun(tables, calls) && n <= |calls|
    requires n > 0 ==> calls[n - 1].now <= clock
    ensures Refines(tables[n], LastAccepted(calls[..n]), clock)
  {
    if n > 0 {
      var c := calls[n - 1];
      RunRefines(tables, calls, n - 1, c.now);
      assert calls[..n][..n - 1] == calls[..n - 1];
      var t, last := tables[n - 1], LastAccepted(calls[..n - 1]);
      assert Step(t, c.key, c.now, c.accepted, tables[n]);
      if c.accepted {
        var i :| 0 <= i < |t| && tables[n] == t[i := Slot(c.key, c.now)]
                 && (if HasKey(t, c.key) then t[i].key == c.key && !Recent(t[i], c.now) else Free(t[i], c.now));
        AcceptRefines(t, last, c.now, i, c.key, c.now);
      }
    }
  }

  /** The table behaves as a map from keys to the time of their last acceptance, short
      of space: a call is refused exactly when its key was accepted within the minute, or
      every slot holds some other key that was. */
  lemma {:induction false} RefusedExactlyWhen(tables: seq<seq<Slot>>, calls: seq<Call>, n: nat)
    requires IsRun(tables, calls) && n < |calls|
    ensures var c, t, last := calls[n], tables[n], LastAccepted(calls[..n]);
      var tooSoon := c.key in last && c.now - last[c.key] < MINUTE;
      var crowded := forall i :: 0 <= i < |t| ==> t[i].key != 0 && t[i].key in last && c.now - last[t[i].key] < MINUTE;
      && (!c.accepted <==> tooSoon || (!HasKey(t, c.key) && crowded))
      && |t| == SLOTS && Unique(t)
  {
    var c, t, last := calls[n], tables[n], LastAccepted(calls[..n]);
    RunRefines(tables, calls, n, c.now);
    assert Step(t, c.key, c.now, c.accepted, tables[n + 1]);
    if HasKey(t, c.key) {
      var i :| 0 <= i < |t| && t[i].key == c.key;
      assert last[c.key] == t[i].at;
    }
  }

  lemma {:induction false} LastAcceptedCovers(calls: seq<Call>, m: nat)
    requires m < |calls| && calls[m].accepted
    requires forall a, b :: 0 <= a < b < |calls| ==> calls[a].now <= calls[b].now
    ensures calls[m].key in LastAccepted(calls) && LastAccepted(calls)[calls[m].key] >= calls[m].now
  {
    var before := calls[..|calls| - 1];
    if m < |calls| - 1 {
      assert before[m] == calls[m];
      LastAcceptedCovers(before, m);
    }
  }

  /** Two acceptances of one key are at least a minute apart, whatever happens to the
      key's slot in between. */
  lemma {:induction false} MinuteApart(tables: seq<seq<Slot>>, calls: seq<Call>, m: nat, n: nat)
    requires IsRun(tables, calls) && m < n < |calls|
    requires calls[m].accepted && calls[n].accepted && calls[m].key == calls[n].key
    ensures calls[n].now - calls[m].now >= MINUTE
  {
    RefusedExactlyWhen(tables, calls, n);
    assert calls[..n][m] == calls[m];
    LastAcceptedCovers(calls[..n], m);
  }
}
