/** Every interleaving of writers, the one send loop and restarts, over the abstract
    spool. Each step is one critical section, or one unlocked stretch of the loop. */
module SpoolRuns {
  import opened Framing
  import opened SpoolQueue

  /** Where the send loop is: idle, between the two halves of a read, sending the
      record it read, or about to acknowledge it. Records go by their number. */
  datatype Loop = Idle | Reading(n: nat) | Sending(n: nat) | Sent(n: nat)

  /** `sent` lists the deliveries the upstream accepted, `session` those since the
      last restart. */
  datatype State = State(queue: Queue, loop: Loop, sent: seq<nat>, session: seq<nat>)

  datatype Step =
    | Write(record: Record)
    | BeginRead
    | FinishRead
    | SendFails
    | SendSucceeds
    | Acknowledge
    | Restart

  const INITIAL := State(EMPTY_QUEUE, Idle, [], [])

  ghost predicate LoopValid(s: State)
  {
    && s.queue.Valid()
    && (!s.loop.Idle? ==> s.loop.n <= |s.queue.fates| && s.loop.n < |s.queue.log|)
  }

  /** A step that is not enabled changes nothing. */
  function Next(s: State, step: Step, maxBytes: int): (s': State)
    requires LoopValid(s)
    ensures LoopValid(s')
  {
    match step
    case Write(r) => s.(queue := Append(s.queue, Clip(r), maxBytes))
    case BeginRead =>
      if s.loop.Idle? && s.queue.Pending() != [] then s.(loop := Reading(|s.queue.fates|)) else s
    case FinishRead =>
      if s.loop.Reading? then s.(loop := Sending(s.loop.n)) else s
    case SendFails =>
      if s.loop.Sending? then s.(loop := Idle) else s
    case SendSucceeds =>
      if s.loop.Sending?
      then State(s.queue, Sent(s.loop.n), s.sent + [s.loop.n], s.session + [s.loop.n]) else s
    case Acknowledge =>
      if s.loop.Sent? then s.(queue := Commit(s.queue, s.loop.n), loop := Idle) else s
    case Restart => State(Reopen(s.queue), Idle, s.sent, [])
  }

  function Run(steps: seq<Step>, maxBytes: int): (s: State)
    ensures LoopValid(s)
  {
    if steps == [] then INITIAL
    else Next(Run(steps[..|steps| - 1], maxBytes), steps[|steps| - 1], maxBytes)
  }

  function Written(steps: seq<Step>): seq<Record>
  {
    if steps == [] then []
    else
      var before, last := Written(steps[..|steps| - 1]), steps[|steps| - 1];
      if last.Write? then before + [Clip(last.record)] else before
  }

  ghost predicate StrictlyIncreasing(ns: seq<nat>)
  {
    forall i, j :: 0 <= i < j < |ns| ==> ns[i] < ns[j]
  }

  /** What every step keeps. */
  ghost predicate Inv(s: State)
  {
    && LoopValid(s)
    && (forall i :: 0 <= i < |s.queue.fates| && s.queue.fates[i] == Delivered ==> i in s.sent)
    && (s.loop.Sent? ==> s.loop.n in s.sent)
    && StrictlyIncreasing(s.session)
    // what this session delivered precedes what it may still read
    && (forall n :: n in s.session ==>
          if s.loop.Idle? then n < |s.queue.fates|
          else if s.loop.Sent? then n <= s.loop.n
          else n < s.loop.n)
  }

  lemma {:induction false} TrimAppendsDrops(q: Queue, maxBytes: int)
    requires q.Valid()
    ensures forall i :: 0 <= i < |Trim(q, maxBytes).fates| && Trim(q, maxBytes).fates[i] == Delivered ==>
      i < |q.fates| && q.fates[i] == Delivered
  {
    TrimDropsShortestPrefix(q, maxBytes);
  }

  lemma StepKeepsInv(s: State, step: Step, maxBytes: int)
    requires Inv(s)
    ensures Inv(Next(s, step, maxBytes))
  {
    var s' := Next(s, step, maxBytes);
    match step
    case Write(r) => TrimAppendsDrops(s.queue.(log := s.queue.log + [Clip(r)]), maxBytes);
    case SendSucceeds =>
      if s.loop.Sending? {
        assert forall i :: 0 <= i < |s.session| ==> s.session[i] in s.session;
      }
    case _ =>
  }

  lemma {:induction false} RunKeepsInv(steps: seq<Step>, maxBytes: int)
    ensures Inv(Run(steps, maxBytes))
  {
    if steps != [] {
      RunKeepsInv(steps[..|steps| - 1], maxBytes);
      StepKeepsInv(Run(steps[..|steps| - 1], maxBytes), steps[|steps| - 1], maxBytes);
    }
  }

  /** No record is lost: whatever was written is still pending, or was dropped by the
      cap, or was accepted by the upstream. In particular no acknowledgement ever
      passes over a record that was not delivered, and this survives restarts. */
  lemma {:induction false} NothingLost(steps: seq<Step>, maxBytes: int)
    ensures var q := Run(steps, maxBytes).queue;
      && q.log == Written(steps)
      && (forall i :: 0 <= i < |Written(steps)| ==>
            || |q.fates| <= i
            || q.fates[i] == Dropped
            || i in Run(steps, maxBytes).sent)
  {
    RunKeepsInv(steps, maxBytes);
    LogIsWritten(steps, maxBytes);
  }

  lemma {:induction false} StepWrites(s: State, step: Step, maxBytes: int)
    requires LoopValid(s)
    ensures Next(s, step, maxBytes).queue.log == s.queue.log + if step.Write? then [Clip(step.record)] else []
  {
  }

  lemma {:induction false} LogIsWritten(steps: seq<Step>, maxBytes: int)
    ensures Run(steps, maxBytes).queue.log == Written(steps)
  {
    if steps != [] {
      var before, last := steps[..|steps| - 1], steps[|steps| - 1];
      LogIsWritten(before, maxBytes);
      StepWrites(Run(before, maxBytes), last, maxBytes);
    }
  }

  /** Appended = acknowledged + dropped + pending. */
  lemma {:induction false} Conservation(steps: seq<Step>, maxBytes: int)
    ensures var q := Run(steps, maxBytes).queue;
      |Written(steps)| == Count(q.fates, Delivered) + Count(q.fates, Dropped) + |q.Pending()|
  {
    LogIsWritten(steps, maxBytes);
    CountsAddUp(Run(steps, maxBytes).queue.fates);
  }

  /** Between restarts the upstream accepts each record at most once, oldest first. */
  lemma {:induction false} OldestFirstAtMostOnce(steps: seq<Step>, maxBytes: int)
    ensures StrictlyIncreasing(Run(steps, maxBytes).session)
  {
    RunKeepsInv(steps, maxBytes);
  }

  ghost predicate CapHolds(q: Queue, maxBytes: int)
    requires |q.fates| <= |q.log|
  {
    q.Pending() == [] || |EncodeAll(q.Pending())| <= maxBytes
  }

  lemma {:induction false} StepKeepsCap(s: State, step: Step, maxBytes: int)
    requires LoopValid(s) && CapHolds(s.queue, maxBytes) && !step.Restart?
    ensures CapHolds(Next(s, step, maxBytes).queue, maxBytes)
  {
    if step.Write? {
      TrimDropsShortestPrefix(s.queue.(log := s.queue.log + [Clip(step.record)]), maxBytes);
    } else if step.Acknowledge? && s.loop.Sent? {
      AcknowledgeShrinks(s.queue, s.loop.n);
    }
  }

  /** Until a restart brings dropped records back, the cap holds at every step. */
  lemma {:induction false} CapAlwaysHolds(steps: seq<Step>, maxBytes: int)
    requires forall i :: 0 <= i < |steps| ==> !steps[i].Restart?
    ensures CapHolds(Run(steps, maxBytes).queue, maxBytes)
  {
    if steps != [] {
      var before, last := steps[..|steps| - 1], steps[|steps| - 1];
      CapAlwaysHolds(before, maxBytes);
      StepKeepsCap(Run(before, maxBytes), last, maxBytes);
    }
  }

  lemma {:induction false} AcknowledgeShrinks(q: Queue, n: nat)
    requires q.Valid() && n < |q.log|
    ensures |EncodeAll(Commit(q, n).Pending())| <= |EncodeAll(q.Pending())|
    ensures Commit(q, n).Pending() != [] ==> q.Pending() != []
  {
    if |q.fates| == n {
      assert q.Pending() == [q.log[n]] + q.log[n + 1..];
      EncodeAllConcat([q.log[n]], q.log[n + 1..]);
    }
  }

  /** Every write ends with the cap in force, also after restarts. */
  lemma {:induction false} WriteRestoresCap(steps: seq<Step>, maxBytes: int)
    requires steps != [] && steps[|steps| - 1].Write?
    ensures CapHolds(Run(steps, maxBytes).queue, maxBytes)
  {
    var q := Run(steps[..|steps| - 1], maxBytes).queue;
    TrimDropsShortestPrefix(q.(log := q.log + [Clip(steps[|steps| - 1].record)]), maxBytes);
  }

  /** Between a restart and the next write the cap holds if and only if nothing comes
      back, or what was dropped since the last persisted offset fits beside what was
      still pending. */
  lemma {:induction false} RestartKeepsCapExactlyWhen(q: Queue, maxBytes: int)
    requires q.Valid()
    ensures CapHolds(Reopen(q), maxBytes) <==>
      || q.saved == |q.log|
      || |EncodeAll(q.log[q.saved..|q.fates|])| + |EncodeAll(q.Pending())| <= maxBytes
  {
    EncodeAllRest(q.log, q.saved, |q.fates|);
    ReopenKeepsUndelivered(q);
  }

  lemma RunOfThree(a: Step, b: Step, c: Step, maxBytes: int)
    ensures Run([a, b, c], maxBytes) == Next(Next(Next(INITIAL, a, maxBytes), b, maxBytes), c, maxBytes)
  {
    assert [a][..0] == [] && [a, b][..1] == [a] && [a, b, c][..2] == [a, b];
    assert Run([a], maxBytes) == Next(INITIAL, a, maxBytes);
    assert Run([a, b], maxBytes) == Next(Run([a], maxBytes), b, maxBytes);
  }

  lemma RoomForOne(r: Record)
    requires r == Record([], [], [])
    ensures |EncodeAll([r])| == 8 && |EncodeAll([r, r])| == 16
    ensures Append(EMPTY_QUEUE, r, 8) == Queue([r], [], 0, 0)
    ensures Append(Queue([r], [], 0, 0), r, 8) == Queue([r, r], [Dropped], 0, 0)
  {
    EncodeAllSingle(r);
    EncodeAllSnoc([r], r);
    assert [r] + [r] == [r, r] && [] + [r] == [r];
    assert Queue([r], [], 0, 0).Pending() == [r];
    var full, dropped := Queue([r, r], [], 0, 0), Queue([r, r], [Dropped], 0, 0);
    assert full.Pending() == [r, r] && dropped.Pending() == [r];
    assert Trim(dropped, 8) == dropped;
    assert Trim(full, 8) == Trim(full.(fates := [] + [Dropped]), 8);
  }

  /** Two empty records under a cap that has room for one: the restart brings the
      dropped one back. */
  lemma {:induction false} RestartExceedsCap()
    ensures var r := Record([], [], []);
      var q := Run([Write(r), Write(r), Restart], 8).queue;
      |EncodeAll(q.Pending())| == 16 && !CapHolds(q, 8)
  {
    var r := Record([], [], []);
    RunOfThree(Write(r), Write(r), Restart, 8);
    RoomForOne(r);
    assert Clip(r) == r;
    assert Reopen(Queue([r, r], [Dropped], 0, 0)).Pending() == [r, r];
  }
}
