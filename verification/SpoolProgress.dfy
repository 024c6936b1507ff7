/** The send loop gets on: how many of its steps empty the spool, in every run. */
module SpoolProgress {
  import opened Framing
  import opened SpoolQueue
  import opened SpoolRuns

  /** The step gets the loop on: a read begins when something is pending, and what has
      been begun is read, sent and acknowledged. */
  predicate GetsOn(s: State, step: Step)
    requires |s.queue.fates| <= |s.queue.log|
  {
    match step
    case BeginRead => s.loop.Idle? && s.queue.Pending() != []
    case FinishRead => s.loop.Reading?
    case SendSucceeds => s.loop.Sending?
    case Acknowledge => s.loop.Sent?
    case _ => false
  }

  /** How many such steps are left: four for each pending record, less those taken for its
      head; or, if the cap has dropped the record under way, besides those to finish it. */
  function Left(s: State): nat
    requires LoopValid(s)
  {
    var pending := 4 * |s.queue.Pending()|;
    if s.loop.Idle? then pending
    else
      var begun := if s.loop.Reading? then 3 else if s.loop.Sending? then 2 else 1;
      if s.loop.n == |s.queue.fates| then pending - 4 + begun else pending + begun
  }

  predicate CanGetOn(s: State)
    requires |s.queue.fates| <= |s.queue.log|
  {
    GetsOn(s, BeginRead) || GetsOn(s, FinishRead) || GetsOn(s, SendSucceeds) || GetsOn(s, Acknowledge)
  }

  /** The loop can get on exactly as long as something is pending or under way. */
  lemma NeverStuck(s: State)
    requires LoopValid(s)
    ensures CanGetOn(s) <==> s.queue.Pending() != [] || !s.loop.Idle?
    ensures CanGetOn(s) <==> Left(s) > 0
  {
  }

  /** Every step that gets the loop on leaves one less; a write adds the four for its
      record, if that stays, and a failed send those that read and sent in vain. */
  lemma {:induction false} StepLeaves(s: State, step: Step, maxBytes: int)
    requires LoopValid(s) && !step.Restart?
    ensures var left := Left(Next(s, step, maxBytes));
      && (GetsOn(s, step) ==> left == Left(s) - 1)
      && (step.Write? ==> left <= Left(s) + 4)
      && (step.SendFails? ==> left <= Left(s) + 2)
      && (!GetsOn(s, step) && !step.Write? && !step.SendFails? ==> left == Left(s))
  {
    if step.Write? {
      WriteLeaves(s, step.record, maxBytes);
    }
  }

  lemma {:induction false} WriteLeaves(s: State, r: Record, maxBytes: int)
    requires LoopValid(s)
    ensures Left(Next(s, Write(r), maxBytes)) <= Left(s) + 4
  {
    var q := Append(s.queue, Clip(r), maxBytes);
    assert |q.Pending()| == |s.queue.Pending()| + 1 - (|q.fates| - |s.queue.fates|);
  }

  // ------------------------------------------------------------ whole runs

  function GotOn(steps: seq<Step>, m: nat, n: nat, maxBytes: int): nat
    requires m <= n <= |steps|
  {
    if m == n then 0
    else GotOn(steps, m, n - 1, maxBytes) + if GetsOn(Run(steps[..n - 1], maxBytes), steps[n - 1]) then 1 else 0
  }

  function Writes(steps: seq<Step>, m: nat, n: nat): nat
    requires m <= n <= |steps|
  {
    if m == n then 0 else Writes(steps, m, n - 1) + if steps[n - 1].Write? then 1 else 0
  }

  function Failures(steps: seq<Step>, m: nat, n: nat): nat
    requires m <= n <= |steps|
  {
    if m == n then 0 else Failures(steps, m, n - 1) + if steps[n - 1].SendFails? then 1 else 0
  }

  /** In every stretch of a run without a restart the loop gets on at most as often as was
      left, four times more for each write and twice for each failed send. */
  lemma {:induction false} DrainBound(steps: seq<Step>, m: nat, n: nat, maxBytes: int)
    requires m <= n <= |steps| && forall k :: m <= k < n ==> !steps[k].Restart?
    ensures GotOn(steps, m, n, maxBytes) + Left(Run(steps[..n], maxBytes))
         <= Left(Run(steps[..m], maxBytes)) + 4 * Writes(steps, m, n) + 2 * Failures(steps, m, n)
  {
    if m < n {
      DrainBound(steps, m, n - 1, maxBytes);
      assert steps[..n][..n - 1] == steps[..n - 1];
      StepLeaves(Run(steps[..n - 1], maxBytes), steps[n - 1], maxBytes);
    }
  }

  /** And it can get on until everything written has been accepted upstream or dropped by
      the cap. */
  lemma {:induction false} GetsOnUntilDrained(steps: seq<Step>, maxBytes: int)
    ensures var s := Run(steps, maxBytes);
      && (CanGetOn(s) <==> s.queue.Pending() != [] || !s.loop.Idle?)
      && (!CanGetOn(s) ==>
            |s.queue.fates| == |Written(steps)|
            && forall i :: 0 <= i < |s.queue.fates| ==> s.queue.fates[i] == Dropped || i in s.sent)
  {
    NothingLost(steps, maxBytes);
    NeverStuck(Run(steps, maxBytes));
  }

  /** After a failed send nothing has changed but the loop, and the next read begins with
      what is then the oldest record: the same one, unless the cap has dropped it. */
  lemma {:induction false} FailureRetries(steps: seq<Step>, k: nat, maxBytes: int)
    requires k < |steps| && steps[k].SendFails? && Run(steps[..k], maxBytes).loop.Sending?
    ensures var s, t := Run(steps[..k], maxBytes), Run(steps[..k + 1], maxBytes);
      && t == s.(loop := Idle)
      && (t.queue.Pending() != [] ==> Next(t, BeginRead, maxBytes).loop == Reading(|s.queue.fates|))
      && (s.loop.n == |s.queue.fates| ==> t.queue.Pending() != [])
  {
    assert steps[..k + 1][..k] == steps[..k];
  }
}
