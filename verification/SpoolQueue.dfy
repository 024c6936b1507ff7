/** The abstract spool: every record ever appended, in order, with the fate of the
    ones that have left the queue. */
module SpoolQueue {
  import opened Framing

  datatype Fate = Delivered | Dropped

  /** `log[..|fates|]` has left the queue and `log[|fates|..]` is pending. The file on
      disk holds `log[start..]`; the persisted read offset points at `log[saved]`. */
  datatype Queue = Queue(log: seq<Record>, fates: seq<Fate>, start: nat, saved: nat)
  {
    ghost predicate Valid()
    {
      && start <= saved <= |fates| <= |log|
      && (forall i :: 0 <= i < |log| ==> Fits(log[i]))
      && (forall i :: saved <= i < |fates| ==> fates[i] == Dropped)
    }

    function Pending(): seq<Record>
      requires |fates| <= |log|
    {
      log[|fates|..]
    }
  }

  const EMPTY_QUEUE := Queue([], [], 0, 0)

  function Count(fates: seq<Fate>, fate: Fate): nat
  {
    if fates == [] then 0
    else Count(fates[..|fates| - 1], fate) + if fates[|fates| - 1] == fate then 1 else 0
  }

  /** Drop-oldest: the head leaves until at most `maxBytes` encoded bytes are pending. */
  function Trim(q: Queue, maxBytes: int): (r: Queue)
    requires q.Valid()
    ensures r.Valid()
    ensures r.log == q.log && r.start == q.start && r.saved == q.saved
    ensures q.fates <= r.fates
    decreases |q.log| - |q.fates|
  {
    if |q.fates| < |q.log| && |EncodeAll(q.Pending())| > maxBytes
    then Trim(q.(fates := q.fates + [Dropped]), maxBytes)
    else q
  }

  function Append(q: Queue, r: Record, maxBytes: int): (q': Queue)
    requires q.Valid() && Fits(r)
    ensures q'.Valid() && q'.log == q.log + [r] && q.fates <= q'.fates
    ensures q'.start == q.start && q'.saved == q.saved
  {
    Trim(q.(log := q.log + [r]), maxBytes)
  }

  /** Appends one record after the other, each clipped. */
  function AppendAll(q: Queue, rs: seq<Record>, maxBytes: int): (q': Queue)
    requires q.Valid()
    ensures q'.Valid() && q.log <= q'.log && q.fates <= q'.fates && q'.start == q.start
  {
    if rs == [] then q
    else Append(AppendAll(q, rs[..|rs| - 1], maxBytes), Clip(rs[|rs| - 1]), maxBytes)
  }

  lemma {:induction false} AppendAllSnoc(q: Queue, rs: seq<Record>, r: Record, maxBytes: int)
    requires q.Valid()
    ensures AppendAll(q, rs + [r], maxBytes) == Append(AppendAll(q, rs, maxBytes), Clip(r), maxBytes)
  {
    assert (rs + [r])[..|rs|] == rs;
  }

  lemma {:induction false} AppendAllConcat(q: Queue, a: seq<Record>, b: seq<Record>, maxBytes: int)
    requires q.Valid()
    ensures AppendAll(q, a + b, maxBytes) == AppendAll(AppendAll(q, a, maxBytes), b, maxBytes)
  {
    if b == [] {
      assert a + b == a;
    } else {
      AppendAllConcat(q, a, b[..|b| - 1], maxBytes);
      assert (a + b)[..|a + b| - 1] == a + b[..|b| - 1];
    }
  }

  /** Acknowledges the record read as number `ticket`. A record that the cap dropped
      meanwhile is passed over. An emptied queue is compacted; otherwise the head is
      what the offset file now names. */
  function Commit(q: Queue, ticket: nat): (q': Queue)
    requires q.Valid() && ticket < |q.log|
    ensures q'.Valid()
  {
    var fates := if |q.fates| == ticket then q.fates + [Delivered] else q.fates;
    if |fates| == |q.log| then Queue(q.log, fates, |q.log|, |q.log|)
    else Queue(q.log, fates, q.start, |fates|)
  }

  /** What a restart sees: everything from the persisted offset on. */
  function Reopen(q: Queue): (q': Queue)
    requires q.Valid()
    ensures q'.Valid()
  {
    q.(fates := q.fates[..q.saved])
  }

  /** The cap drops the shortest prefix that brings the pending bytes within bounds. */
  lemma {:induction false} TrimDropsShortestPrefix(q: Queue, maxBytes: int)
    requires q.Valid()
    ensures var r := Trim(q, maxBytes);
      && (r.Pending() == [] || |EncodeAll(r.Pending())| <= maxBytes)
      && (forall i :: |q.fates| <= i < |r.fates| ==> r.fates[i] == Dropped)
      && (forall k :: |q.fates| <= k < |r.fates| ==> |EncodeAll(q.log[k..])| > maxBytes)
    decreases |q.log| - |q.fates|
  {
    if |q.fates| < |q.log| && |EncodeAll(q.Pending())| > maxBytes {
      var q1 := q.(fates := q.fates + [Dropped]);
      TrimDropsShortestPrefix(q1, maxBytes);
      var r := Trim(q, maxBytes);
      assert r.fates[|q.fates|] == q1.fates[|q.fates|];
    }
  }

  lemma {:induction false} CountExtends(a: seq<Fate>, b: seq<Fate>, fate: Fate)
    ensures Count(a + b, fate) == Count(a, fate) + Count(b, fate)
  {
    if b == [] {
      assert a + b == a;
    } else {
      CountExtends(a, b[..|b| - 1], fate);
      assert (a + b)[..|a + b| - 1] == a + b[..|b| - 1];
    }
  }

  lemma {:induction false} CountsAddUp(fates: seq<Fate>)
    ensures Count(fates, Delivered) + Count(fates, Dropped) == |fates|
  {
    if fates != [] {
      CountsAddUp(fates[..|fates| - 1]);
    }
  }

  /** A restart loses no undelivered record: the reopened queue is the live one,
      preceded only by records that the cap dropped since the last persisted offset. */
  lemma {:induction false} ReopenKeepsUndelivered(q: Queue)
    requires q.Valid()
    ensures Reopen(q).Pending() == q.log[q.saved..|q.fates|] + q.Pending()
    ensures forall i :: q.saved <= i < |q.fates| ==> q.fates[i] == Dropped
    ensures forall i :: 0 <= i < |q.log| && (i < |q.fates| ==> q.fates[i] == Delivered)
              ==> (i < |Reopen(q).fates| <==> i < |q.fates|)
  {
    assert q.log[q.saved..] == q.log[q.saved..|q.fates|] + q.Pending();
  }
}
