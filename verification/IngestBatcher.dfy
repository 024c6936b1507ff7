/** The ingest batcher as an object: each method is one section under its mutex. */
module IngestBatchers {
  import opened BatchCore

  datatype Turn = Exited | Waiting | Took(group: seq<nat>)

  class IngestBatcher {
    var limitRequests: int
    var limitBytes: int
    var works: seq<Work>
    var pending: seq<nat>
    var requests: int
    var bytes: int
    var running: bool
    var closed: bool
    var workers: nat
    var exits: nat

    function View(): Core
      reads this
    {
      Core(limitRequests, limitBytes, works, pending, requests, bytes, running, closed, workers, exits)
    }

    constructor ()
      ensures View() == Core(256, 0x400_0000, [], [], 0, 0, false, false, 0, 0)
      ensures CoreInv(View())
    {
      limitRequests, limitBytes := 256, 0x400_0000;
      works, pending := [], [];
      requests, bytes := 0, 0;
      running, closed := false, false;
      workers, exits := 0, 0;
    }

    method Submit(cancelled: bool, rows: nat, size: nat, now: int) returns (r: Admission)
      requires CoreInv(View())
      modifies this
      ensures r == Admit(old(View()), cancelled, size)
      ensures r.Accepted? <==>
        && !cancelled && !closed
        && Open(old(works)) + 1 <= limitRequests && OpenBytes(old(works)) + size <= limitBytes
      ensures View() == Enqueue(old(View()), cancelled, rows, size, now)
      ensures r.Accepted? ==>
        && works == old(works) + [Work(rows, size, now, false, false, false, 0, false)]
        && pending == old(pending) + [|old(works)|] && running
      ensures CoreInv(View())
    {
      EnqueueKeeps(View(), cancelled, rows, size, now);
      if cancelled {
        return Cancelled;
      }
      if closed {
        return Closed;
      }
      if requests >= limitRequests || size > limitBytes - bytes {
        return Busy;
      }
      r := Accepted(|works|);
      works, pending := works + [Work(rows, size, now, false, false, false, 0, false)], pending + [|works|];
      requests := requests + 1;
      bytes := bytes + size;
      if !running {
        running := true;
        workers := workers + 1;
      }
    }

    method ReleaseOne(id: nat)
      requires id < |works|
      modifies `works, `requests, `bytes
      ensures View() == Release(old(View()), id)
    {
      var w := works[id];
      works := works[id := w.(finished := true, closes := w.closes + 1)];
      requests := requests - 1;
      bytes := bytes - w.bytes;
    }

    /** The locked part of a wait whose context is done. */
    method TakeBack(id: nat)
      requires CoreInv(View()) && id < |works|
      modifies this
      ensures View() == Withdraw(old(View()), id)
      ensures CoreInv(View())
    {
      WithdrawKeeps(View(), id);
      if !works[id].started && !works[id].finished {
        var i := 0;
        while i < |pending| && pending[i] != id
          invariant i <= |pending|
          invariant forall j :: 0 <= j < i ==> pending[j] != id
        {
          i := i + 1;
        }
        assert i == IndexOf(pending, id);
        if i < |pending| {
          pending := pending[..i] + pending[i + 1..];
        }
        works := works[id := works[id].(failed := true)];
        ReleaseOne(id);
      }
    }

    /** Walks the head of the queue until the group is full. */
    method ScanGroup() returns (n: nat, rows: nat, size: nat)
      requires Within(pending, |works|)
      ensures (n, rows, size) == Scan(works, pending, 0, 0, 0)
    {
      n, rows, size := 0, 0, 0;
      while n < |pending|
        invariant n <= |pending|
        invariant Scan(works, pending, 0, 0, 0) == Scan(works, pending, n, rows, size)
      {
        var w := works[pending[n]];
        if n > 0 && (rows + w.rows > BATCH_ROWS || size + w.bytes > BATCH_BYTES) {
          break;
        }
        rows, size, n := rows + w.rows, size + w.bytes, n + 1;
        if rows >= BATCH_ROWS || size >= BATCH_BYTES {
          break;
        }
      }
    }

    /** One turn of the worker's loop under the lock: it ends when nothing is pending,
        waits while the head group may still grow, and otherwise takes that group. */
    method TakeTurn(now: int, window: int) returns (turn: Turn)
      requires CoreInv(View())
      modifies `running, `exits, `pending
      ensures CoreInv(View())
      ensures turn.Exited? <==> old(pending) == []
      ensures turn.Exited? ==> View() == Exit(old(View()))
      ensures turn.Waiting? <==> old(pending) != [] && Waits(old(View()), now, window)
      ensures turn.Waiting? ==> View() == old(View())
      ensures turn.Took? ==> (View(), turn.group) == TakeGroup(old(View()))
    {
      if pending == [] {
        running := false;
        exits := exits + 1;
        return Exited;
      }
      ghost var c := View();
      ReadyExactlyWhen(c, now, window);
      GroupIsFittingPrefix(c);
      var n, rows, size := ScanGroup();
      var remaining := works[pending[0]].queued + window - now;
      var ready := closed || remaining <= 0 || rows >= BATCH_ROWS || size >= BATCH_BYTES
                   || n < |pending| || requests >= limitRequests;
      assert ready == Ready(c, now, window);
      if !ready {
        return Waiting;
      }
      turn := Took(pending[..n]);
      pending := pending[n..];
      assert View() == TakeGroup(c).0;
    }

    method MarkStarted(id: nat) returns (skipped: bool)
      requires id < |works|
      modifies `works
      ensures skipped == old(works)[id].finished
      ensures View() == Start(old(View()), id)
      ensures works == if skipped then old(works) else old(works)[id := old(works)[id].(started := true)]
    {
      skipped := works[id].finished;
      if !skipped {
        works := works[id := works[id].(started := true)];
      }
    }

    /** The locked end of a group. */
    method FinishGroup(group: seq<nat>)
      requires Within(group, |works|)
      modifies `works, `requests, `bytes
      ensures View() == ReleaseGroup(old(View()), group)
    {
      var i := 0;
      while i < |group|
        invariant i <= |group| && |works| == old(|works|)
        invariant ReleaseGroup(View(), group[i..]) == ReleaseGroup(old(View()), group)
      {
        assert group[i..][1..] == group[i + 1..];
        if !works[group[i]].finished {
          ReleaseOne(group[i]);
        }
        i := i + 1;
      }
      assert group[i..] == [];
    }

    method Configure(maxRequests: int, megabytes: int)
      modifies `limitRequests, `limitBytes
      ensures View() == BatchCore.Configure(old(View()), maxRequests, megabytes)
      ensures limitRequests == if maxRequests > 0 then maxRequests else 256
      ensures limitBytes == if megabytes > 0 then megabytes * 0x10_0000 else 64 * 0x10_0000
    {
      limitRequests := if maxRequests <= 0 then 256 else maxRequests;
      limitBytes := if megabytes <= 0 then 0x400_0000 else megabytes * 0x10_0000;
    }

    /** Returns the number of the idle channel to wait for, or 0 to return at once. */
    method Close() returns (waitFor: nat)
      modifies `closed
      ensures View() == old(View()).(closed := true)
      ensures waitFor == if running then workers else 0
    {
      closed := true;
      waitFor := if running then workers else 0;
    }
  }
}
