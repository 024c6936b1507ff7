/** Which works of the ingest batcher end with an error: exactly those that have a reason. */
module BatchErrors {
  import opened BatchCore
  import opened BatchRuns
  import opened BatchTheorems
  import opened BatchTrace

  ghost predicate NeverRan(t: seq<Event>, x: nat)
  {
    forall b: nat, f: bool, a: nat :: Ran(b, x, f, a) !in t
  }

  /** Some run of the group failed, or its flush did. */
  ghost predicate GroupError(t: seq<Event>, b: nat)
  {
    !NoFailure(t, b) || Flushed(b, true) in t
  }

  /** A reason for the work's error: its caller gave up before it ran, or it ran in a
      group of which some run, or the flush, failed. */
  ghost predicate Reason(t: seq<Event>, x: nat, cancelled: bool)
  {
    (cancelled && NeverRan(t, x)) || exists b: nat, f: bool, a: nat :: Ran(b, x, f, a) in t && GroupError(t, b)
  }

  // ------------------------------------------------------------ the invariant

  ghost predicate ErrorsExplained(c: Core, t: seq<Event>)
  {
    forall x: nat :: x < |c.works| && c.works[x].failed ==> Reason(t, x, c.works[x].cancelled)
  }

  /** The stage of a work tells whether it ran in group `b` or was given up before. */
  ghost predicate StageTold(c: Core, t: seq<Event>, b: nat, x: nat, stage: Stage)
    requires x < |c.works|
  {
    stage.Stage? ==>
      if stage.ran then exists f: bool :: Ran(b, x, f, stage.after) in t
      else c.works[x].cancelled && NeverRan(t, x)
  }

  ghost predicate StagesTold(c: Core, t: seq<Event>, b: nat, group: seq<nat>, stages: seq<Stage>)
    requires |stages| <= |group| && Within(group, |c.works|)
  {
    forall k :: 0 <= k < |stages| ==> StageTold(c, t, b, group[k], stages[k])
  }

  ghost predicate WorkerTold(c: Core, w: Worker, t: seq<Event>)
    requires WorkerInv(c, w)
  {
    match w
    case Starting(b, group, stages, writeErr) => (writeErr ==> !NoFailure(t, b)) && StagesTold(c, t, b, group, stages)
    case Running(b, group, stages, writeErr) => (writeErr ==> !NoFailure(t, b)) && StagesTold(c, t, b, group, stages)
    case Settling(b, group, stages, flushErr, _, _, _) =>
      (flushErr ==> GroupError(t, b)) && StagesTold(c, t, b, group, stages)
    case _ => true
  }

  ghost predicate Told(v: View)
    requires ViewInv(v)
  {
    ErrorsExplained(v.core, v.trace) && WorkerTold(v.core, v.worker, v.trace)
  }

  // ------------------------------------------------------------ growing histories

  lemma {:induction false} ReasonGrows(t: seq<Event>, e: Event, x: nat, cancelled: bool)
    requires Reason(t, x, cancelled) && (e.Ran? ==> e.id != x || !NeverRan(t, x))
    ensures Reason(t + [e], x, cancelled)
  {
    if !(cancelled && NeverRan(t, x)) {
      var b: nat, f: bool, a: nat :| Ran(b, x, f, a) in t && GroupError(t, b);
      ErrorGrows(t, e, b);
      assert Ran(b, x, f, a) in t + [e];
    }
  }

  lemma {:induction false} ErrorGrows(t: seq<Event>, e: Event, b: nat)
    requires GroupError(t, b)
    ensures GroupError(t + [e], b)
    ensures !NoFailure(t, b) ==> !NoFailure(t + [e], b)
  {
    if !NoFailure(t, b) {
      var x: nat, a: nat :| Ran(b, x, true, a) in t;
      assert Ran(b, x, true, a) in t + [e];
    }
  }

  lemma {:induction false} ToldGrows(c: Core, t: seq<Event>, e: Event, b: nat, x: nat, stage: Stage)
    requires x < |c.works| && StageTold(c, t, b, x, stage) && (e.Ran? ==> e.id != x)
    ensures StageTold(c, t + [e], b, x, stage)
  {
    if stage.Stage? && stage.ran {
      var f: bool :| Ran(b, x, f, stage.after) in t;
      assert Ran(b, x, f, stage.after) in t + [e];
    }
  }

  /** The work whose turn it is has not run yet. */
  lemma {:induction false} TurnNotRun(v: View)
    requires ViewInv(v) && v.worker.Running?
    ensures NeverRan(v.trace, v.worker.group[|v.worker.stages|])
    ensures forall k :: 0 <= k < |v.worker.stages| ==> v.worker.group[k] != v.worker.group[|v.worker.stages|]
  {
    RanBeforeRest(v.trace, v.worker.group, |v.worker.stages|);
    GroupDisjoint(v.core, v.worker.group);
  }

  // ------------------------------------------------------------ worker steps

  lemma {:induction false} StartTold(v: View, o: Oracle)
    requires ViewInv(v) && Told(v) && v.worker.Starting? && |v.worker.stages| < |v.worker.group|
    requires ViewInv(StartNext(v, o))
    ensures Told(StartNext(v, o))
  {
    var Starting(b, group, stages, writeErr) := v.worker;
    var w := StartNext(v, o);
    assert w.trace == v.trace && |w.core.works| == |v.core.works|;
    assert forall x :: 0 <= x < |w.core.works| ==>
        w.core.works[x].failed == v.core.works[x].failed && w.core.works[x].cancelled == v.core.works[x].cancelled;
    StagesStayTold(v.core, w.core, v.trace, b, group, stages);
  }

  /** What is told of stages needs cancellations to stay, and no more. */
  lemma {:induction false} StagesStayTold(c: Core, c': Core, t: seq<Event>, b: nat, group: seq<nat>,
                                          stages: seq<Stage>)
    requires |c.works| <= |c'.works| && |stages| <= |group| && Within(group, |c.works|)
    requires forall x :: 0 <= x < |c.works| ==> c.works[x].cancelled ==> c'.works[x].cancelled
    requires StagesTold(c, t, b, group, stages)
    ensures StagesTold(c', t, b, group, stages)
  {
    forall k | 0 <= k < |stages|
      ensures StageTold(c', t, b, group[k], stages[k])
    {
      assert StageTold(c, t, b, group[k], stages[k]);
    }
  }

  lemma {:induction false} FlushTold(v: View, o: Oracle)
    requires ViewInv(v) && Told(v) && v.worker.Starting? && |v.worker.stages| == |v.worker.group|
    requires ViewInv(StartNext(v, o))
    ensures Told(StartNext(v, o))
  {
    var Starting(b, group, stages, writeErr) := v.worker;
    var e := Flushed(b, o.flushFailed);
    forall x: nat | x < |v.core.works| && v.core.works[x].failed
      ensures Reason(v.trace + [e], x, v.core.works[x].cancelled)
    {
      ReasonGrows(v.trace, e, x, v.core.works[x].cancelled);
    }
    forall k | 0 <= k < |stages|
      ensures StageTold(v.core, v.trace + [e], b, group[k], stages[k])
    {
      ToldGrows(v.core, v.trace, e, b, group[k], stages[k]);
    }
    if writeErr {
      ErrorGrows(v.trace, e, b);
    } else if o.flushFailed {
      assert (v.trace + [e])[|v.trace|] == e;
    }
  }

  /** A work whose caller has given up is not run, and its error is the caller's. */
  lemma {:induction false} GiveUpTold(v: View, o: Oracle)
    requires ViewInv(v) && Told(v) && v.worker.Running? && v.core.works[v.worker.group[|v.worker.stages|]].cancelled
    requires ViewInv(RunOne(v, o))
    ensures Told(RunOne(v, o))
  {
    TurnNotRun(v);
    var Running(b, group, stages, writeErr) := v.worker;
    var c' := RunOne(v, o).core;
    forall k | 0 <= k < |stages|
      ensures StageTold(c', v.trace, b, group[k], stages[k])
    {
      assert StageTold(v.core, v.trace, b, group[k], stages[k]);
    }
  }

  lemma {:induction false} RunTold(v: View, o: Oracle)
    requires ViewInv(v) && Told(v) && v.worker.Running? && !v.core.works[v.worker.group[|v.worker.stages|]].cancelled
    requires ViewInv(RunOne(v, o))
    ensures Told(RunOne(v, o))
  {
    TurnNotRun(v);
    var Running(b, group, stages, writeErr) := v.worker;
    var id := group[|stages|];
    var e, c' := Ran(b, id, o.runFailed, o.after), RunOne(v, o).core;
    assert (v.trace + [e])[|v.trace|] == e;
    forall x: nat | x < |c'.works| && c'.works[x].failed
      ensures Reason(v.trace + [e], x, c'.works[x].cancelled)
    {
      if x == id {
        assert Ran(b, id, true, o.after) in v.trace + [e];
      } else {
        ReasonGrows(v.trace, e, x, v.core.works[x].cancelled);
      }
    }
    forall k | 0 <= k < |stages| + 1
      ensures StageTold(c', v.trace + [e], b, group[k], (stages + [Stage(true, o.after)])[k])
    {
      if k < |stages| {
        assert StageTold(v.core, v.trace, b, group[k], stages[k]);
        ToldGrows(v.core, v.trace, e, b, group[k], stages[k]);
      }
    }
    if writeErr {
      ErrorGrows(v.trace, e, b);
    } else if o.runFailed {
      assert Ran(b, id, true, o.after) in v.trace + [e];
    }
  }

  /** Joining the flush error: it comes with a reason for every work that was started. */
  lemma {:induction false} JoinTold(v: View)
    requires ViewInv(v) && Told(v) && v.worker.Settling? && v.worker.i < |v.worker.group| && !v.worker.joined
    requires ViewInv(Settle(v))
    ensures Told(Settle(v))
  {
    var Settling(b, group, stages, flushErr, i, joined, j) := v.worker;
    assert StageTold(v.core, v.trace, b, group[i], stages[i]);
    var c' := Settle(v).core;
    forall k | 0 <= k < |stages|
      ensures StageTold(c', v.trace, b, group[k], stages[k])
    {
      assert StageTold(v.core, v.trace, b, group[k], stages[k]);
    }
  }

  lemma {:induction false} EffectTold(v: View)
    requires ViewInv(v) && Told(v) && EffectNext(v) && ViewInv(AfterEffect(v))
    ensures Told(AfterEffect(v))
  {
    var Settling(b, group, stages, flushErr, i, joined, j) := v.worker;
    var e := After(b, group[i], j);
    forall x: nat | x < |v.core.works| && v.core.works[x].failed
      ensures Reason(v.trace + [e], x, v.core.works[x].cancelled)
    {
      ReasonGrows(v.trace, e, x, v.core.works[x].cancelled);
    }
    forall k | 0 <= k < |stages|
      ensures StageTold(v.core, v.trace + [e], b, group[k], stages[k])
    {
      ToldGrows(v.core, v.trace, e, b, group[k], stages[k]);
    }
    if flushErr {
      ErrorGrows(v.trace, e, b);
    }
  }

  /** Going on to the next work, or to the release, tells nothing new. */
  lemma {:induction false} AdvanceTold(v: View)
    requires ViewInv(v) && Told(v) && v.worker.Settling? && ViewInv(Settle(v)) && !EffectNext(v)
    requires v.worker.i < |v.worker.group| ==> v.worker.joined
    ensures Told(Settle(v))
  {
    var w := Settle(v);
    assert w.core == v.core && w.trace == v.trace;
  }

  lemma {:induction false} EffectSettled(v: View)
    requires ViewInv(v) && Told(v) && EffectNext(v) && ViewInv(Settle(v))
    ensures Told(Settle(v))
  {
    assert Settle(v) == AfterEffect(v);
    EffectTold(v);
  }

  lemma {:induction false} SettleTold(v: View)
    requires ViewInv(v) && Told(v) && v.worker.Settling? && ViewInv(Settle(v))
    ensures Told(Settle(v))
  {
    if v.worker.i < |v.worker.group| && !v.worker.joined {
      JoinTold(v);
    } else if EffectNext(v) {
      EffectSettled(v);
    } else {
      AdvanceTold(v);
    }
  }

  lemma {:induction false} ReleasedCancelled(c: Core, group: seq<nat>)
    requires Within(group, |c.works|)
    ensures forall x :: 0 <= x < |c.works| ==> ReleaseGroup(c, group).works[x].cancelled == c.works[x].cancelled
    decreases |group|
  {
    if group != [] {
      ReleasedCancelled(if c.works[group[0]].finished then c else Release(c, group[0]), group[1..]);
    }
  }

  lemma {:induction false} ReleaseTold(v: View)
    requires ViewInv(v) && Told(v) && v.worker.Releasing?
    requires ViewInv(v.(core := ReleaseGroup(v.core, v.worker.group), worker := AtTop))
    ensures Told(v.(core := ReleaseGroup(v.core, v.worker.group), worker := AtTop))
  {
    ReleaseGroupFinishes(v.core, v.worker.group);
    ReleasedCancelled(v.core, v.worker.group);
  }

  lemma {:induction false} CollectTold(v: View, o: Oracle)
    requires ViewInv(v) && Told(v) && v.worker.AtTop? && v.core.pending != [] && ViewInv(Collect(v, o))
    ensures Told(Collect(v, o))
  {
  }

  lemma {:induction false} StartOrFlushTold(v: View, o: Oracle)
    requires ViewInv(v) && Told(v) && v.worker.Starting? && ViewInv(StartNext(v, o))
    ensures Told(StartNext(v, o))
  {
    if |v.worker.stages| < |v.worker.group| {
      StartTold(v, o);
    } else {
      FlushTold(v, o);
    }
  }

  lemma {:induction false} RunOrGiveUpTold(v: View, o: Oracle)
    requires ViewInv(v) && Told(v) && v.worker.Running? && ViewInv(RunOne(v, o))
    ensures Told(RunOne(v, o))
  {
    if v.core.works[v.worker.group[|v.worker.stages|]].cancelled {
      GiveUpTold(v, o);
    } else {
      RunTold(v, o);
    }
  }

  lemma {:induction false} WorkerNextTold(v: View, o: Oracle)
    requires ViewInv(v) && Told(v) && !(v.worker.AtTop? && v.core.pending == [])
    requires ViewInv(WorkerNext(v, o))
    ensures Told(WorkerNext(v, o))
  {
    match v.worker
    case AtTop => CollectTold(v, o);
    case Starting(_, _, _, _) => StartOrFlushTold(v, o);
    case Running(_, _, _, _) => RunOrGiveUpTold(v, o);
    case Settling(_, _, _, _, _, _, _) => SettleTold(v);
    case Releasing(_) => ReleaseTold(v);
  }

  // ------------------------------------------------------------ all steps

  ghost predicate ToldInv(s: State)
    requires Inv(s)
  {
    ErrorsExplained(s.core, s.trace) && (s.workers != [] ==> WorkerTold(s.core, s.workers[0], s.trace))
  }

  lemma {:induction false} WorkerKeepsTold(s: State, k: nat, o: Oracle)
    requires Inv(s) && ToldInv(s) && Enabled(s, Step.Worker(k, o)) && Inv(Next(s, Step.Worker(k, o)))
    ensures ToldInv(Next(s, Step.Worker(k, o)))
  {
    var v := View(s.core, s.workers[k], s.trace, s.batches);
    assert k == 0 && s.workers == [v.worker];
    if !(v.worker.AtTop? && s.core.pending == []) {
      WorkerNextHistory(v, o);
      WorkerNextTold(v, o);
    }
  }

  /** What callers may do to the errors: a work newly failed is cancelled and was never
      started. */
  ghost predicate CallerErrors(c: Core, c': Core)
  {
    && |c.works| <= |c'.works|
    && (forall x :: 0 <= x < |c.works| ==> c.works[x].cancelled ==> c'.works[x].cancelled)
    && (forall x :: 0 <= x < |c'.works| && c'.works[x].failed ==>
          x < |c.works| && (c.works[x].failed || (c'.works[x].cancelled && !c.works[x].started)))
  }

  lemma {:induction false} CallerKeepsErrors(c: Core, c': Core, t: seq<Event>, batches: nat)
    requires TraceInv(c, t, batches) && ErrorsExplained(c, t) && CallerErrors(c, c')
    ensures ErrorsExplained(c', t)
  {
    forall x: nat | x < |c'.works| && c'.works[x].failed
      ensures Reason(t, x, c'.works[x].cancelled)
    {
      if c.works[x].failed {
        assert Reason(t, x, c.works[x].cancelled);
      } else {
        assert NeverRan(t, x);
      }
    }
  }

  lemma {:induction false} MoreTold(c: Core, c': Core, w: Worker, t: seq<Event>)
    requires WorkerInv(c, w) && WorkerInv(c', w) && WorkerTold(c, w, t) && CallerErrors(c, c')
    ensures WorkerTold(c', w, t)
  {
    match w
    case Starting(b, group, stages, _) => StagesStayTold(c, c', t, b, group, stages);
    case Running(b, group, stages, _) => StagesStayTold(c, c', t, b, group, stages);
    case Settling(b, group, stages, _, _, _, _) => StagesStayTold(c, c', t, b, group, stages);
    case _ =>
  }

  lemma {:induction false} CallerIsHarmless(s: State, step: Step)
    requires Inv(s) && Enabled(s, step) && !step.Worker?
    ensures CallerErrors(s.core, Next(s, step).core)
  {
  }

  lemma {:induction false} StepKeepsTold(s: State, step: Step)
    requires Inv(s) && ToldInv(s) && Enabled(s, step)
    ensures Inv(Next(s, step)) && ToldInv(Next(s, step))
  {
    StepKeepsInv(s, step);
    if step.Worker? {
      WorkerKeepsTold(s, step.k, step.o);
    } else {
      var s' := Next(s, step);
      CallerIsHarmless(s, step);
      CallerKeepsErrors(s.core, s'.core, s.trace, s.batches);
      if s.workers != [] {
        MoreTold(s.core, s'.core, s.workers[0], s.trace);
      }
    }
  }

  lemma {:induction false} RunKeepsTold(states: seq<State>, steps: seq<Step>, n: nat)
    requires IsRun(states, steps) && n <= |steps|
    ensures Inv(states[n]) && ToldInv(states[n])
  {
    RunKeepsInv(states, steps, n);
    if n > 0 {
      RunKeepsTold(states, steps, n - 1);
      StepKeepsTold(states[n - 1], steps[n - 1]);
    }
  }

  // ------------------------------------------------------------ the results

  lemma {:induction false} FlushedOnce(t: seq<Event>, b: nat)
    requires TraceOK(t) && Flushed(b, false) in t
    ensures Flushed(b, true) !in t
  {
    var i: nat :| i < |t| && t[i] == Flushed(b, false);
    forall k: nat | k < |t| && t[k].Flushed? && t[k].batch == b
      ensures k == i
    {
      if i < k { TraceOrdered(t, i, k); } else if k < i { TraceOrdered(t, k, i); }
    }
  }

  lemma {:induction false} AckedHasNoReason(t: seq<Event>, x: nat, cancelled: bool)
    requires TraceOK(t) && Acked(t, x)
    ensures !Reason(t, x, cancelled)
  {
    var b: nat, a: nat :| AckedIn(t, x, b, a);
    FlushedOnce(t, b);
    forall b': nat, f': bool, a': nat | Ran(b', x, f', a') in t
      ensures !GroupError(t, b')
    {
      OneRunPerWork(t, x, b, false, a, b', f', a');
    }
  }

  /** In every reachable state a finished work ends with an error if and only if there is
      a reason: its caller gave up and it never ran, or it ran in a group of which some
      run, or the flush, failed. */
  lemma {:induction false} FailsExactlyWhen(states: seq<State>, steps: seq<Step>, n: nat, x: nat)
    requires IsRun(states, steps) && n <= |steps|
    requires x < |states[n].core.works| && states[n].core.works[x].finished
    ensures states[n].core.works[x].failed <==> Reason(states[n].trace, x, states[n].core.works[x].cancelled)
  {
    RunKeepsTold(states, steps, n);
    if !states[n].core.works[x].failed {
      AckedHasNoReason(states[n].trace, x, states[n].core.works[x].cancelled);
    }
  }

  /** The converse of a nil acknowledgement: a finished work whose group was flushed and
      ran without any error is acknowledged with nil, and all its effects have run. */
  lemma {:induction false} CleanWorkAcknowledged(states: seq<State>, steps: seq<Step>, n: nat, x: nat, b: nat, a: nat)
    requires IsRun(states, steps) && n <= |steps|
    requires x < |states[n].core.works| && states[n].core.works[x].finished
    requires var t := states[n].trace; Ran(b, x, false, a) in t && Flushed(b, false) in t && NoFailure(t, b)
    ensures !states[n].core.works[x].failed && EffectsDone(states[n].trace, b, x, a)
  {
    var t := states[n].trace;
    RunKeepsTold(states, steps, n);
    FlushedOnce(t, b);
    forall b': nat, f': bool, a': nat | Ran(b', x, f', a') in t
      ensures b' == b
    {
      OneRunPerWork(t, x, b, false, a, b', f', a');
    }
    var b': nat, a': nat :| AckedIn(t, x, b', a');
    OneRunPerWork(t, x, b, false, a, b', false, a');
  }

  /** Every work whose caller keeps waiting is run. */
  lemma {:induction false} WaitingWorkRuns(states: seq<State>, steps: seq<Step>, n: nat, x: nat)
    requires IsRun(states, steps) && n <= |steps|
    requires x < |states[n].core.works| && states[n].core.works[x].finished && !states[n].core.works[x].cancelled
    ensures exists b: nat, f: bool, a: nat :: Ran(b, x, f, a) in states[n].trace
  {
    RunKeepsTold(states, steps, n);
    FailsExactlyWhen(states, steps, n, x);
    var t := states[n].trace;
    if !states[n].core.works[x].failed {
      var b: nat, a: nat :| AckedIn(t, x, b, a);
      assert Ran(b, x, false, a) in t;
    }
  }
}
