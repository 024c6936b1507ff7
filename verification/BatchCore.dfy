/** The ingest batcher's state under its mutex, as values: one function for each
    critical section. A work is named by the number of its acceptance. */
module BatchCore {
  const BATCH_ROWS: nat := 4096
  const BATCH_BYTES: nat := 0x40_0000

  /** `closes` counts how often the work's done channel has been closed, `cancelled`
      is the caller's context, `failed` says that the work's error is non-nil. */
  datatype Work = Work(rows: nat, bytes: nat, queued: int, started: bool, finished: bool,
                       failed: bool, closes: nat, cancelled: bool)

  /** `workers` counts the idle channels made (one per worker started) and `exits`
      the ones closed. */
  datatype Core = Core(limitRequests: int, limitBytes: int, works: seq<Work>, pending: seq<nat>,
                       requests: int, bytes: int, running: bool, closed: bool,
                       workers: nat, exits: nat)

  datatype Admission = Accepted(id: nat) | Cancelled | Closed | Busy

  predicate Within(ids: seq<nat>, n: nat)
  {
    forall i :: 0 <= i < |ids| ==> ids[i] < n
  }

  // ------------------------------------------------------------ critical sections

  function Admit(c: Core, cancelled: bool, size: nat): Admission
  {
    if cancelled then Cancelled
    else if c.closed then Closed
    else if c.requests >= c.limitRequests || size > c.limitBytes - c.bytes then Busy
    else Accepted(|c.works|)
  }

  function Enqueue(c: Core, cancelled: bool, rows: nat, size: nat, now: int): Core
  {
    if !Admit(c, cancelled, size).Accepted? then c
    else c.(works := c.works + [Work(rows, size, now, false, false, false, 0, false)],
            pending := c.pending + [|c.works|],
            requests := c.requests + 1,
            bytes := c.bytes + size,
            running := true,
            workers := if c.running then c.workers else c.workers + 1)
  }

  function Release(c: Core, id: nat): Core
    requires id < |c.works|
  {
    var w := c.works[id];
    c.(works := c.works[id := w.(finished := true, closes := w.closes + 1)],
       requests := c.requests - 1,
       bytes := c.bytes - w.bytes)
  }

  /** The first position of `id`, or the length if it is absent. */
  function IndexOf(pending: seq<nat>, id: nat): (i: nat)
    ensures i <= |pending|
    ensures i < |pending| ==> pending[i] == id
    ensures forall j :: 0 <= j < i ==> pending[j] != id
  {
    if pending == [] || pending[0] == id then 0 else 1 + IndexOf(pending[1..], id)
  }

  function Remove(pending: seq<nat>, id: nat): seq<nat>
  {
    var i := IndexOf(pending, id);
    if i == |pending| then pending else pending[..i] + pending[i + 1..]
  }

  /** A waiting caller whose context is done takes its work back, unless the worker
      has started it or it is finished already. */
  function Withdraw(c: Core, id: nat): Core
    requires id < |c.works|
  {
    var w := c.works[id];
    if w.started || w.finished then c
    else Release(c.(pending := Remove(c.pending, id), works := c.works[id := w.(failed := true)]), id)
  }

  /** The longest admissible group at the head of the queue: how many works, and
      their rows and bytes. `n`, `rows` and `size` are those of the works before. */
  function Scan(works: seq<Work>, pending: seq<nat>, n: nat, rows: nat, size: nat): (r: (nat, nat, nat))
    requires n <= |pending| && Within(pending, |works|)
    ensures n <= r.0 <= |pending|
    decreases |pending| - n
  {
    if n == |pending| then (n, rows, size)
    else
      var w := works[pending[n]];
      if n > 0 && (rows + w.rows > BATCH_ROWS || size + w.bytes > BATCH_BYTES) then (n, rows, size)
      else if rows + w.rows >= BATCH_ROWS || size + w.bytes >= BATCH_BYTES
      then (n + 1, rows + w.rows, size + w.bytes)
      else Scan(works, pending, n + 1, rows + w.rows, size + w.bytes)
  }

  /** Whether the worker takes a group now instead of waiting for more work. */
  function Ready(c: Core, now: int, window: int): bool
    requires c.pending != [] && Within(c.pending, |c.works|)
  {
    var (n, rows, size) := Scan(c.works, c.pending, 0, 0, 0);
    || c.closed
    || c.works[c.pending[0]].queued + window - now <= 0
    || rows >= BATCH_ROWS || size >= BATCH_BYTES
    || n < |c.pending|
    || c.requests >= c.limitRequests
  }

  function TakeGroup(c: Core): (r: (Core, seq<nat>))
    requires Within(c.pending, |c.works|)
  {
    var n := Scan(c.works, c.pending, 0, 0, 0).0;
    (c.(pending := c.pending[n..]), c.pending[..n])
  }

  function Exit(c: Core): Core
  {
    c.(running := false, exits := c.exits + 1)
  }

  function Start(c: Core, id: nat): Core
    requires id < |c.works|
  {
    if c.works[id].finished then c
    else c.(works := c.works[id := c.works[id].(started := true)])
  }

  function SetError(c: Core, id: nat, failed: bool): Core
    requires id < |c.works|
  {
    c.(works := c.works[id := c.works[id].(failed := failed)])
  }

  function ReleaseGroup(c: Core, group: seq<nat>): (c': Core)
    requires Within(group, |c.works|)
    ensures |c'.works| == |c.works|
    decreases |group|
  {
    if group == [] then c
    else ReleaseGroup(if c.works[group[0]].finished then c else Release(c, group[0]), group[1..])
  }

  /** Limits from the settings; values that are not positive mean the defaults. */
  function Configure(c: Core, requests: int, megabytes: int): Core
  {
    c.(limitRequests := if requests <= 0 then 256 else requests,
       limitBytes := if megabytes <= 0 then 0x400_0000 else megabytes * 0x10_0000)
  }

  // ------------------------------------------------------------ accounting

  /** Accepted works that are not finished, and their bytes. */
  function Open(works: seq<Work>): nat
  {
    if works == [] then 0
    else Open(works[..|works| - 1]) + if works[|works| - 1].finished then 0 else 1
  }

  function OpenBytes(works: seq<Work>): nat
  {
    if works == [] then 0
    else OpenBytes(works[..|works| - 1]) + if works[|works| - 1].finished then 0 else works[|works| - 1].bytes
  }

  predicate Increasing(ids: seq<nat>)
  {
    forall i, j :: 0 <= i < j < |ids| ==> ids[i] < ids[j]
  }

  ghost predicate CoreInv(c: Core)
  {
    && c.requests == Open(c.works)
    && c.bytes == OpenBytes(c.works)
    && (forall i :: 0 <= i < |c.works| ==> c.works[i].closes == if c.works[i].finished then 1 else 0)
    && Increasing(c.pending)
    && Within(c.pending, |c.works|)
    && (forall i :: 0 <= i < |c.pending| ==> !c.works[c.pending[i]].started && !c.works[c.pending[i]].finished)
  }

  lemma {:induction false} OpenAfterUpdate(works: seq<Work>, id: nat, w: Work)
    requires id < |works|
    requires w.bytes == works[id].bytes
    ensures Open(works[id := w]) == Open(works) + (if works[id].finished then 1 else 0) - (if w.finished then 1 else 0)
    ensures OpenBytes(works[id := w])
      == OpenBytes(works) + (if works[id].finished then w.bytes else 0) - (if w.finished then w.bytes else 0)
  {
    var n := |works| - 1;
    if id == n {
      assert works[id := w][..n] == works[..n];
    } else {
      OpenAfterUpdate(works[..n], id, w);
      assert works[id := w][..n] == works[..n][id := w];
    }
  }

  lemma {:induction false} OpenAfterAppend(works: seq<Work>, w: Work)
    ensures Open(works + [w]) == Open(works) + if w.finished then 0 else 1
    ensures OpenBytes(works + [w]) == OpenBytes(works) + if w.finished then 0 else w.bytes
  {
    assert (works + [w])[..|works|] == works;
  }

  lemma {:induction false} NoneOpen(works: seq<Work>)
    requires forall i :: 0 <= i < |works| ==> works[i].finished
    ensures Open(works) == 0 && OpenBytes(works) == 0
  {
    if works != [] {
      NoneOpen(works[..|works| - 1]);
    }
  }

  lemma EnqueueKeeps(c: Core, cancelled: bool, rows: nat, size: nat, now: int)
    requires CoreInv(c)
    ensures CoreInv(Enqueue(c, cancelled, rows, size, now))
  {
    var c' := Enqueue(c, cancelled, rows, size, now);
    if Admit(c, cancelled, size).Accepted? {
      OpenAfterAppend(c.works, c'.works[|c.works|]);
    }
  }

  /** Every admission leaves both totals within the limits then in force, even right
      after the limits were lowered below what is already queued. */
  lemma AdmissionWithinLimits(c: Core, cancelled: bool, rows: nat, size: nat, now: int)
    requires CoreInv(c)
    ensures var c' := Enqueue(c, cancelled, rows, size, now);
      if Admit(c, cancelled, size).Accepted?
      then Open(c'.works) <= c'.limitRequests && OpenBytes(c'.works) <= c'.limitBytes && !c.closed
      else c' == c
  {
    EnqueueKeeps(c, cancelled, rows, size, now);
  }

  /** A request is admitted exactly if it fits; otherwise the refusals have an order. */
  lemma AdmittedExactlyWhen(c: Core, cancelled: bool, size: nat)
    requires CoreInv(c)
    ensures Admit(c, cancelled, size).Accepted? <==>
      !cancelled && !c.closed && Open(c.works) + 1 <= c.limitRequests && OpenBytes(c.works) + size <= c.limitBytes
    ensures Admit(c, cancelled, size).Cancelled? <==> cancelled
    ensures Admit(c, cancelled, size).Closed? <==> !cancelled && c.closed
  {
  }

  lemma {:induction false} ReleaseKeeps(c: Core, id: nat)
    requires CoreInv(c) && id < |c.works| && !c.works[id].finished && id !in c.pending
    ensures CoreInv(Release(c, id))
  {
    var w := c.works[id];
    OpenAfterUpdate(c.works, id, w.(finished := true, closes := w.closes + 1));
  }

  /** Changes to flags other than `finished` of a work that is not pending. */
  lemma {:induction false} FlagKeeps(c: Core, id: nat, w: Work)
    requires CoreInv(c) && id < |c.works|
    requires w.finished == c.works[id].finished && w.closes == c.works[id].closes && w.bytes == c.works[id].bytes
    requires id in c.pending ==> !w.started
    ensures CoreInv(c.(works := c.works[id := w]))
  {
    OpenAfterUpdate(c.works, id, w);
  }

  lemma IncreasingWithout(ids: seq<nat>, at: nat)
    requires Increasing(ids) && at < |ids|
    ensures Increasing(ids[..at] + ids[at + 1..])
  {
  }

  /** Removal takes out exactly that id and keeps the order of the others. */
  lemma {:induction false} RemoveExact(pending: seq<nat>, id: nat)
    requires Increasing(pending)
    ensures var rest := Remove(pending, id);
      && Increasing(rest)
      && (forall x :: x in rest <==> x in pending && x != id)
  {
    var i, rest := IndexOf(pending, id), Remove(pending, id);
    if i < |pending| {
      forall x | x in pending && x != id
        ensures x in rest
      {
        var k :| 0 <= k < |pending| && pending[k] == x;
        assert rest[if k < i then k else k - 1] == x;
      }
    }
  }

  lemma {:induction false} WithdrawKeeps(c: Core, id: nat)
    requires CoreInv(c) && id < |c.works|
    ensures CoreInv(Withdraw(c, id))
  {
    var w := c.works[id];
    if !w.started && !w.finished {
      RemoveExact(c.pending, id);
      var c1 := c.(pending := Remove(c.pending, id));
      assert forall i :: 0 <= i < |c1.pending| ==> c1.pending[i] in c.pending;
      FlagKeeps(c1, id, w.(failed := true));
      ReleaseKeeps(c1.(works := c.works[id := w.(failed := true)]), id);
    }
  }

  lemma {:induction false} ReleaseGroupKeeps(c: Core, group: seq<nat>)
    requires CoreInv(c)
    requires Within(group, |c.works|) && forall i :: 0 <= i < |group| ==> group[i] !in c.pending
    ensures CoreInv(ReleaseGroup(c, group))
    decreases |group|
  {
    if group != [] {
      var c1 := if c.works[group[0]].finished then c else Release(c, group[0]);
      if !c.works[group[0]].finished {
        ReleaseKeeps(c, group[0]);
      }
      ReleaseGroupKeeps(c1, group[1..]);
    }
  }

  // ------------------------------------------------------------ groups

  function RowsOf(works: seq<Work>, ids: seq<nat>): nat
    requires Within(ids, |works|)
  {
    if ids == [] then 0 else RowsOf(works, ids[..|ids| - 1]) + works[ids[|ids| - 1]].rows
  }

  function BytesOf(works: seq<Work>, ids: seq<nat>): nat
    requires Within(ids, |works|)
  {
    if ids == [] then 0 else BytesOf(works, ids[..|ids| - 1]) + works[ids[|ids| - 1]].bytes
  }

  /** The group limits: only a single work may exceed them, and the group stops only
      when it is full, or when the next work would overfill it. */
  ghost predicate GroupFits(works: seq<Work>, pending: seq<nat>, n: nat)
    requires n <= |pending| && Within(pending, |works|)
  {
    var rows, size := RowsOf(works, pending[..n]), BytesOf(works, pending[..n]);
    && (n > 1 ==> rows <= BATCH_ROWS && size <= BATCH_BYTES)
    && (n < |pending| ==>
          || rows >= BATCH_ROWS || size >= BATCH_BYTES
          || rows + works[pending[n]].rows > BATCH_ROWS
          || size + works[pending[n]].bytes > BATCH_BYTES)
  }

  lemma {:induction false} TotalsNext(works: seq<Work>, pending: seq<nat>, n: nat)
    requires n < |pending| && Within(pending, |works|)
    ensures RowsOf(works, pending[..n + 1]) == RowsOf(works, pending[..n]) + works[pending[n]].rows
    ensures BytesOf(works, pending[..n + 1]) == BytesOf(works, pending[..n]) + works[pending[n]].bytes
  {
    assert pending[..n + 1][..n] == pending[..n];
  }

  lemma {:induction false} ScanFits(works: seq<Work>, pending: seq<nat>, n: nat)
    requires n <= |pending| && Within(pending, |works|)
    requires n > 0 ==> RowsOf(works, pending[..n]) < BATCH_ROWS && BytesOf(works, pending[..n]) < BATCH_BYTES
    ensures var r := Scan(works, pending, n, RowsOf(works, pending[..n]), BytesOf(works, pending[..n]));
      && r == (r.0, RowsOf(works, pending[..r.0]), BytesOf(works, pending[..r.0]))
      && GroupFits(works, pending, r.0)
      && (pending != [] ==> r.0 > 0)
    decreases |pending| - n
  {
    if n < |pending| {
      var w := works[pending[n]];
      TotalsNext(works, pending, n);
      var rows, size := RowsOf(works, pending[..n]), BytesOf(works, pending[..n]);
      if n > 0 && (rows + w.rows > BATCH_ROWS || size + w.bytes > BATCH_BYTES) {
      } else if rows + w.rows >= BATCH_ROWS || size + w.bytes >= BATCH_BYTES {
      } else {
        ScanFits(works, pending, n + 1);
      }
    }
  }

  lemma {:induction false} SuffixKeeps(c: Core, n: nat)
    requires CoreInv(c) && n <= |c.pending|
    ensures CoreInv(c.(pending := c.pending[n..])) && c.pending[..n] + c.pending[n..] == c.pending
  {
    var rest := c.pending[n..];
    assert forall i :: 0 <= i < |rest| ==> rest[i] == c.pending[n + i];
  }

  /** A group is a prefix of the queue, so works leave in acceptance order; it is
      never empty, and holds several works only within the batch limits. */
  lemma {:induction false} GroupIsFittingPrefix(c: Core)
    requires CoreInv(c) && c.pending != []
    ensures var (c', group) := TakeGroup(c);
      && group != [] && group + c'.pending == c.pending
      && GroupFits(c.works, c.pending, |group|)
      && c' == c.(pending := c'.pending)
      && CoreInv(c')
  {
    assert c.pending[..0] == [];
    ScanFits(c.works, c.pending, 0);
    SuffixKeeps(c, Scan(c.works, c.pending, 0, 0, 0).0);
  }

  // ------------------------------------------------------------ the collection window

  lemma {:induction false} PrefixTotals(works: seq<Work>, pending: seq<nat>, n: nat)
    requires n <= |pending| && Within(pending, |works|)
    ensures RowsOf(works, pending[..n]) <= RowsOf(works, pending)
    ensures BytesOf(works, pending[..n]) <= BytesOf(works, pending)
    decreases |pending| - n
  {
    if n == |pending| {
      assert pending[..n] == pending;
    } else {
      TotalsNext(works, pending, n);
      PrefixTotals(works, pending, n + 1);
    }
  }

  /** What is queued would fill a group. */
  predicate Fills(c: Core)
    requires Within(c.pending, |c.works|)
  {
    RowsOf(c.works, c.pending) >= BATCH_ROWS || BytesOf(c.works, c.pending) >= BATCH_BYTES
  }

  lemma {:induction false} ScanStopsExactlyWhen(c: Core)
    requires Within(c.pending, |c.works|)
    ensures var (n, rows, size) := Scan(c.works, c.pending, 0, 0, 0);
      (n < |c.pending| || rows >= BATCH_ROWS || size >= BATCH_BYTES) <==> Fills(c)
  {
    assert c.pending[..0] == [];
    ScanFits(c.works, c.pending, 0);
    var n := Scan(c.works, c.pending, 0, 0, 0).0;
    PrefixTotals(c.works, c.pending, n);
    if n < |c.pending| {
      TotalsNext(c.works, c.pending, n);
      PrefixTotals(c.works, c.pending, n + 1);
    } else {
      assert c.pending[..n] == c.pending;
    }
  }

  /** The worker waits for more work: a single small export waits for others, and no
      longer than the window. */
  predicate Waits(c: Core, now: int, window: int)
    requires c.pending != [] && Within(c.pending, |c.works|)
  {
    && !c.closed && now - c.works[c.pending[0]].queued < window
    && c.requests < c.limitRequests && !Fills(c)
  }

  /** A group is due exactly if the batcher is closed, the oldest work has been queued for
      the window, the limit of requests is reached, or the queue fills a group. */
  lemma {:induction false} ReadyExactlyWhen(c: Core, now: int, window: int)
    requires c.pending != [] && Within(c.pending, |c.works|)
    ensures Ready(c, now, window) <==> !Waits(c, now, window)
  {
    ScanStopsExactlyWhen(c);
  }

  lemma {:induction false} ScanOfLonger(works: seq<Work>, more: seq<Work>, pending: seq<nat>, id: nat, n: nat,
                                        rows: nat, size: nat)
    requires n <= |pending| && Within(pending, |works|) && works <= more && id < |more|
    ensures var r, r' := Scan(works, pending, n, rows, size), Scan(more, pending + [id], n, rows, size);
      if r.0 < |pending| || ((n < r.0) && (r.1 >= BATCH_ROWS || r.2 >= BATCH_BYTES)) then r' == r
      else r'.0 >= r.0
    decreases |pending| - n
  {
    if n < |pending| {
      var w := works[pending[n]];
      assert more[(pending + [id])[n]] == w;
      if n > 0 && (rows + w.rows > BATCH_ROWS || size + w.bytes > BATCH_BYTES) {
      } else if rows + w.rows >= BATCH_ROWS || size + w.bytes >= BATCH_BYTES {
      } else {
        ScanOfLonger(works, more, pending, id, n + 1, rows + w.rows, size + w.bytes);
      }
    }
  }

  /** A group that is due stays due: neither later arrivals nor the passing of time
      postpone it, so a steady stream cannot hold back the oldest work. */
  lemma {:induction false} ArrivalsDoNotPostpone(c: Core, now: int, window: int, rows: nat, size: nat, later: int)
    requires CoreInv(c) && c.pending != [] && Ready(c, now, window) && now <= later
    ensures Ready(Enqueue(c, false, rows, size, later), later, window)
  {
    var c' := Enqueue(c, false, rows, size, later);
    if Admit(c, false, size).Accepted? {
      ScanOfLonger(c.works, c'.works, c.pending, |c.works|, 0, 0, 0);
      assert c'.works[c'.pending[0]] == c.works[c.pending[0]];
    }
  }
}
