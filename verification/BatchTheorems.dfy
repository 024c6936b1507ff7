/** The guarantees of the ingest batcher, over every run of the system. */
module BatchTheorems {
  import opened BatchCore
  import opened BatchRuns
  import opened BatchTrace

  ghost predicate Inv(s: State)
  {
    SchedInv(s) && HistoryInv(s)
  }

  lemma {:induction false} WorkerNextHistory(v: View, o: Oracle)
    requires ViewInv(v) && !(v.worker.AtTop? && v.core.pending == [])
    ensures ViewInv(WorkerNext(v, o))
  {
    match v.worker
    case AtTop => CollectHistory(v, o);
    case Starting(_, group, stages, _) =>
      if |stages| < |group| {
        StartHistory(v, o);
      } else {
        FlushHistory(v, o);
      }
    case Running(_, _, _, _) => RunHistory(v, o);
    case Settling(_, group, stages, _, i, joined, j) =>
      if i == |group| {
        SettledHistory(v);
      } else if !joined {
        JoinHistory(v);
      } else if v.core.works[group[i]].failed || j >= stages[i].after {
        AdvanceHistory(v);
      } else {
        EffectHistory(v);
      }
    case Releasing(_) => ReleaseHistory(v);
  }

  lemma HistoryOfView(s: State, v: View)
    requires SchedInv(s) && ViewInv(v)
    requires s.core == v.core && s.workers == [v.worker] && s.trace == v.trace && s.batches == v.batches
    ensures Inv(s)
  {
  }

  lemma ExitKeepsHistory(s: State, o: Oracle)
    requires Inv(s) && Enabled(s, Step.Worker(0, o)) && s.workers[0].AtTop? && s.core.pending == []
    requires SchedInv(Next(s, Step.Worker(0, o)))
    ensures Inv(Next(s, Step.Worker(0, o)))
  {
  }

  lemma ViewOfHistory(s: State, v: View)
    requires Inv(s) && Usable(v)
    requires s.core == v.core && s.workers == [v.worker] && s.trace == v.trace && s.batches == v.batches
    ensures ViewInv(v)
  {
  }

  /** The only worker there is, and what it sees. */
  lemma TheWorker(s: State, k: nat, o: Oracle) returns (v: View)
    requires SchedInv(s) && Enabled(s, Step.Worker(k, o))
    ensures k == 0 && Usable(v)
    ensures s.core == v.core && s.workers == [v.worker] && s.trace == v.trace && s.batches == v.batches
    ensures Next(s, Step.Worker(k, o)) ==
      if v.worker.AtTop? && v.core.pending == [] then s.(core := Exit(s.core), workers := [])
      else
        var w := WorkerNext(v, o);
        State(w.core, [w.worker], w.trace, w.batches, s.closers)
  {
    v := View(s.core, s.workers[k], s.trace, s.batches);
  }

  lemma {:induction false} WorkerKeepsHistory(s: State, k: nat, o: Oracle)
    requires Inv(s) && Enabled(s, Step.Worker(k, o))
    ensures Inv(Next(s, Step.Worker(k, o)))
  {
    WorkKeeps(s, k, o);
    var v := TheWorker(s, k, o);
    if v.worker.AtTop? && v.core.pending == [] {
      ExitKeepsHistory(s, o);
    } else {
      ViewOfHistory(s, v);
      WorkerNextHistory(v, o);
      HistoryOfView(Next(s, Step.Worker(k, o)), WorkerNext(v, o));
    }
  }

  /** A caller's step as seen by the history. */
  lemma {:induction false} CallerKeepsHistory(s: State, s': State)
    requires Inv(s) && SchedInv(s')
    requires s'.trace == s.trace && s'.batches == s.batches
    requires s.workers != [] ==> s'.workers == s.workers && CallerStep(s.core, s'.core, GroupOf(s.workers[0]))
    requires s.workers == [] ==> CallerStep(s.core, s'.core, []) && (s'.workers == [] || s'.workers == [AtTop])
    ensures Inv(s')
  {
    if s.workers != [] {
      CallerKeepsTrace(s.core, s'.core, s.trace, s.batches, GroupOf(s.workers[0]));
      CallerKeepsWorkerTrace(s.core, s'.core, s.workers[0], s.trace, s.batches);
    } else {
      CallerKeepsTrace(s.core, s'.core, s.trace, s.batches, []);
      CallerKeepsOrder(s.core, s'.core, s.trace, s.batches, []);
    }
  }

  ghost function GroupUnderWay(s: State): seq<nat>
  {
    if s.workers == [] then [] else GroupOf(s.workers[0])
  }

  lemma {:induction false} SubmitKeepsInv(s: State, cancelled: bool, rows: nat, size: nat, now: int)
    requires Inv(s)
    ensures Inv(Next(s, Submit(cancelled, rows, size, now)))
  {
    SubmitKeeps(s, cancelled, rows, size, now);
    EnqueueIsCallerStep(s.core, cancelled, rows, size, now, GroupUnderWay(s));
    CallerKeepsHistory(s, Next(s, Submit(cancelled, rows, size, now)));
  }

  lemma {:induction false} CancelWaitKeepsInv(s: State, id: nat)
    requires Inv(s) && Enabled(s, CancelWait(id))
    ensures Inv(Next(s, CancelWait(id)))
  {
    CancelWaitKeeps(s, id);
    WithdrawIsCallerStep(s.core, id, GroupUnderWay(s));
    CallerKeepsHistory(s, Next(s, CancelWait(id)));
  }

  lemma {:induction false} SettingKeepsInv(s: State, step: Step)
    requires Inv(s) && Enabled(s, step) && (step.CancelContext? || step.Reconfigure? || step.Shutdown?)
    ensures Inv(Next(s, step))
  {
    StepKeepsSched(s, step);
    assert CallerStep(s.core, Next(s, step).core, GroupUnderWay(s));
    CallerKeepsHistory(s, Next(s, step));
  }

  lemma {:induction false} StepKeepsInv(s: State, step: Step)
    requires Inv(s) && Enabled(s, step)
    ensures Inv(Next(s, step))
  {
    match step
    case Worker(k, o) => WorkerKeepsHistory(s, k, o);
    case Submit(cancelled, rows, size, now) => SubmitKeepsInv(s, cancelled, rows, size, now);
    case CancelWait(id) => CancelWaitKeepsInv(s, id);
    case _ => SettingKeepsInv(s, step);
  }

  lemma {:induction false} RunKeepsInv(states: seq<State>, steps: seq<Step>, n: nat)
    requires IsRun(states, steps) && n <= |steps|
    ensures Inv(states[n])
  {
    if n > 0 {
      RunKeepsInv(states, steps, n - 1);
      StepKeepsInv(states[n - 1], steps[n - 1]);
    }
  }

  // ------------------------------------------------------------ accounting and workers

  /** In every reachable state the totals are those of the accepted works that are not
      finished, and each work's done channel has been closed once if it is finished and
      never otherwise, whichever of the caller and the worker came first. */
  lemma {:induction false} AccountingExact(states: seq<State>, steps: seq<Step>, n: nat)
    requires IsRun(states, steps) && n <= |steps|
    ensures var c := states[n].core;
      && c.requests == Open(c.works) && c.bytes == OpenBytes(c.works)
      && (forall x :: 0 <= x < |c.works| ==> c.works[x].closes == if c.works[x].finished then 1 else 0)
  {
    RunKeepsInv(states, steps, n);
  }

  /** At most one worker lives at a time; when none does, the queue is empty, both
      totals are zero and every accepted work is finished. */
  lemma {:induction false} OneWorkerOrIdle(states: seq<State>, steps: seq<Step>, n: nat)
    requires IsRun(states, steps) && n <= |steps|
    ensures var s := states[n];
      && |s.workers| <= 1 && (s.workers == [] <==> !s.core.running)
      && (!s.core.running ==>
            && s.core.pending == [] && s.core.requests == 0 && s.core.bytes == 0
            && forall x :: 0 <= x < |s.core.works| ==> s.core.works[x].finished)
  {
    RunKeepsInv(states, steps, n);
    if !states[n].core.running {
      NoneOpen(states[n].core.works);
    }
  }

  /** Once Close has been called nothing is accepted; and whenever a call of Close may
      return nil (its idle channel is closed), everything accepted has finished. */
  lemma {:induction false} CloseDrains(states: seq<State>, steps: seq<Step>, n: nat, k: nat)
    requires IsRun(states, steps) && n <= |steps| && k < |states[n].closers|
    ensures n < |steps| && steps[n].Submit? ==> states[n + 1] == states[n]
    ensures states[n].closers[k] <= states[n].core.exits ==>
              forall x :: 0 <= x < |states[n].core.works| ==> states[n].core.works[x].finished
  {
    RunKeepsInv(states, steps, n);
    OneWorkerOrIdle(states, steps, n);
  }

  // ------------------------------------------------------------ draining

  /** How many steps a worker needs to be back at the top of its loop, effects apart. */
  ghost function Rank(w: Worker): int
  {
    match w
    case AtTop => 0
    case Releasing(_) => 1
    case Settling(_, group, _, _, i, joined, _) => 2 + 2 * (|group| - i) - (if joined then 1 else 0)
    case Starting(_, group, stages, _) => 3 + 2 * |group| + 2 * (|group| - |stages|)
    case Running(_, group, stages, _) => 2 + 2 * |group| + 2 * (|group| - |stages|)
  }

  /** How many steps the worker still needs at most: eight for each work in the queue,
      those for its group, and one to end. Effects do not count. */
  ghost function Left(s: State): int
  {
    8 * |s.core.pending| + if s.workers == [] then 0 else 1 + Rank(s.workers[0])
  }

  function Effects(t: seq<Event>): nat
  {
    if t == [] then 0 else Effects(t[..|t| - 1]) + if t[|t| - 1].After? then 1 else 0
  }

  lemma EffectsSnoc(t: seq<Event>, e: Event)
    ensures Effects(t + [e]) == Effects(t) + if e.After? then 1 else 0
  {
    assert (t + [e])[..|t|] == t;
  }

  /** What a view still costs, and the effects behind it. */
  ghost function Due(v: View): int
  {
    8 * |v.core.pending| + Rank(v.worker) - Effects(v.trace)
  }

  lemma {:induction false} SettleDue(v: View)
    requires Usable(v) && v.worker.Settling?
    ensures Due(Settle(v)) <= Due(v) - 1
  {
    if v.worker.i < |v.worker.group| {
      EffectsSnoc(v.trace, After(v.worker.batch, v.worker.group[v.worker.i], v.worker.j));
    }
  }

  lemma {:induction false} StartDue(v: View, o: Oracle)
    requires Usable(v) && v.worker.Starting?
    ensures Due(StartNext(v, o)) <= Due(v) - 1
  {
    EffectsSnoc(v.trace, Flushed(v.worker.batch, o.flushFailed));
    if |v.worker.stages| < |v.worker.group| {
      assert |v.worker.stages + [NoStage]| == |v.worker.stages| + 1;
    }
  }

  lemma {:induction false} RunDue(v: View, o: Oracle)
    requires Usable(v) && v.worker.Running?
    ensures Due(RunOne(v, o)) <= Due(v) - 1
  {
    EffectsSnoc(v.trace, Ran(v.worker.batch, v.worker.group[|v.worker.stages|], o.runFailed, o.after));
  }

  lemma {:induction false} CollectDue(v: View, o: Oracle)
    requires Usable(v) && CoreInv(v.core) && v.core.closed && v.worker.AtTop? && v.core.pending != []
    ensures Due(Collect(v, o)) <= Due(v) - 1
  {
    GroupIsFittingPrefix(v.core);
    assert |v.core.pending| == |TakeGroup(v.core).1| + |TakeGroup(v.core).0.pending|;
  }

  /** Once the batcher is closed, every step of the worker is one step less to take, or
      an effect; it no longer waits for the collection window. */
  lemma {:induction false} WorkerDue(v: View, o: Oracle)
    requires Usable(v) && CoreInv(v.core) && v.core.closed && !(v.worker.AtTop? && v.core.pending == [])
    ensures Due(WorkerNext(v, o)) <= Due(v) - 1
  {
    match v.worker
    case AtTop => CollectDue(v, o);
    case Starting(_, _, _, _) => StartDue(v, o);
    case Running(_, _, _, _) => RunDue(v, o);
    case Settling(_, _, _, _, _, _, _) => SettleDue(v);
    case Releasing(group) => ReleaseGroupFinishes(v.core, group);
  }

  /** What is left, after the effects so far. */
  ghost function Balance(s: State): int
  {
    Left(s) - Effects(s.trace)
  }

  lemma {:induction false} RemoveShrinks(pending: seq<nat>, id: nat)
    ensures |Remove(pending, id)| <= |pending|
  {
  }

  /** After Close, no step of a caller brings more work for the worker, and every step of
      the worker brings it nearer to its end or is an effect. */
  lemma {:induction false} StepDrains(s: State, step: Step)
    requires SchedInv(s) && s.core.closed && Enabled(s, step)
    ensures var s' := Next(s, step);
      && s'.core.closed
      && Balance(s') <= Balance(s) - (if step.Worker? then 1 else 0)
  {
    match step
    case Worker(k, o) =>
      assert k == 0;
      var v := View(s.core, s.workers[0], s.trace, s.batches);
      if !(v.worker.AtTop? && s.core.pending == []) {
        WorkerDue(v, o);
        WorkerNextFrame(v, o);
      }
    case CancelWait(id) => RemoveShrinks(s.core.pending, id);
    case _ =>
  }

  function WorkerSteps(steps: seq<Step>, m: nat, n: nat): nat
    requires m <= n <= |steps|
  {
    if m == n then 0 else WorkerSteps(steps, m, n - 1) + if steps[n - 1].Worker? then 1 else 0
  }

  lemma {:induction false} RunStepDrains(states: seq<State>, steps: seq<Step>, k: nat)
    requires IsRun(states, steps) && k < |steps| && states[k].core.closed
    ensures states[k + 1].core.closed
    ensures Balance(states[k + 1]) <= Balance(states[k]) - if steps[k].Worker? then 1 else 0
  {
    RunKeepsInv(states, steps, k);
    StepDrains(states[k], steps[k]);
  }

  lemma {:induction false} RunDrains(states: seq<State>, steps: seq<Step>, m: nat, n: nat)
    requires IsRun(states, steps) && m <= n <= |steps| && states[m].core.closed
    ensures states[n].core.closed && WorkerSteps(steps, m, n) + Balance(states[n]) <= Balance(states[m])
  {
    if m < n {
      RunDrains(states, steps, m, n - 1);
      RunStepDrains(states, steps, n - 1);
    }
  }

  lemma {:induction false} NothingLeftIffEnded(s: State)
    requires SchedInv(s)
    ensures Left(s) >= 0 && (Left(s) == 0 <==> s.workers == [])
  {
  }

  /** In every run, however callers interleave, the worker takes after Close no more
      steps than are left then, with the effects that run meanwhile; when none are left,
      it has ended. */
  lemma {:induction false} DrainingBound(states: seq<State>, steps: seq<Step>, m: nat, n: nat)
    requires IsRun(states, steps) && m <= n <= |steps| && states[m].core.closed
    ensures WorkerSteps(steps, m, n) + Left(states[n])
      <= Left(states[m]) + Effects(states[n].trace) - Effects(states[m].trace)
    ensures Left(states[n]) >= 0 && (Left(states[n]) == 0 <==> states[n].workers == [])
  {
    RunDrains(states, steps, m, n);
    RunKeepsInv(states, steps, n);
    NothingLeftIffEnded(states[n]);
  }

  /** And as long as it lives it can take a step, in every reachable state, whatever the
      outcomes of runs and flushes. */
  lemma {:induction false} WorkerNeverStuck(states: seq<State>, steps: seq<Step>, n: nat, o: Oracle)
    requires IsRun(states, steps) && n <= |steps| && states[n].workers != []
    ensures Enabled(states[n], Step.Worker(0, o))
  {
    RunKeepsInv(states, steps, n);
  }

  /** In every reachable state a worker with work pending waits if and only if a group may
      still grow, and otherwise takes some of the oldest works as its next group. */
  lemma {:induction false} WaitsExactlyWhen(states: seq<State>, steps: seq<Step>, n: nat, o: Oracle)
    requires IsRun(states, steps) && n <= |steps|
    requires states[n].workers == [AtTop] && states[n].core.pending != []
    ensures Within(states[n].core.pending, |states[n].core.works|)
    ensures Enabled(states[n], Step.Worker(0, o))
    ensures var s, t := states[n], Next(states[n], Step.Worker(0, o));
      if Waits(s.core, o.now, o.window) then t == s
      else
        && |t.workers| == 1 && t.workers[0].Starting? && t.workers[0].group != []
        && t.workers[0] == Starting(s.batches, t.workers[0].group, [], false)
        && t.workers[0].group + t.core.pending == s.core.pending
        && t == s.(core := s.core.(pending := t.core.pending), workers := t.workers, batches := s.batches + 1)
  {
    RunKeepsInv(states, steps, n);
    var c := states[n].core;
    ReadyExactlyWhen(c, o.now, o.window);
    GroupIsFittingPrefix(c);
    var group := TakeGroup(c).1;
    assert group + c.pending[|group|..] == c.pending;
  }

  /** The limits in force are the latest ones set; settings that are not positive mean 256
      requests and 64 MiB, and nothing else changes them. */
  lemma {:induction false} LimitsExactly(s: State, step: Step)
    requires Inv(s) && Enabled(s, step)
    ensures var c, c' := s.core, Next(s, step).core;
      match step
      case Reconfigure(requests, megabytes) =>
        && c' == c.(limitRequests := c'.limitRequests, limitBytes := c'.limitBytes)
        && c'.limitRequests == (if requests > 0 then requests else 256)
        && c'.limitBytes == 1024 * 1024 * if megabytes > 0 then megabytes else 64
      case _ => c'.limitRequests == c.limitRequests && c'.limitBytes == c.limitBytes
  {
    if step.Worker? && s.workers[step.k].Releasing? {
      ReleaseKeepsLimits(s.core, s.workers[step.k].group);
    }
  }

  lemma {:induction false} ReleaseKeepsLimits(c: Core, group: seq<nat>)
    requires Within(group, |c.works|)
    ensures ReleaseGroup(c, group).limitRequests == c.limitRequests && ReleaseGroup(c, group).limitBytes == c.limitBytes
    decreases |group|
  {
    if group != [] {
      ReleaseKeepsLimits(if c.works[group[0]].finished then c else Release(c, group[0]), group[1..]);
    }
  }

  // ------------------------------------------------------------ acknowledgements

  lemma {:induction false} EarlierInPrefix(t: seq<Event>, i: nat, k: nat)
    requires i < k <= |t|
    ensures t[i] in t[..k]
  {
    assert t[..k][i] == t[i];
  }

  lemma {:induction false} TraceOrdered(t: seq<Event>, i: nat, k: nat)
    requires TraceOK(t) && i < k < |t|
    ensures t[i].Ran? && t[k].Ran? ==> t[i].id < t[k].id && t[i].batch <= t[k].batch
    ensures t[i].Flushed? && t[k].Flushed? ==> t[i].batch < t[k].batch
    ensures t[i].Flushed? && t[k].Ran? ==> t[i].batch < t[k].batch
  {
    assert Justified(t[..k], t[k]);
    EarlierInPrefix(t, i, k);
  }

  /** The history behind an acknowledgement, by position: the work's run at `r` and its
      group's flush at `f` both succeeded; every run of the group precedes the flush and
      succeeded; every effect of the work follows the flush. */
  ghost predicate AckedAt(t: seq<Event>, x: nat, a: nat, r: nat, f: nat)
  {
    && r < f < |t|
    && t[r].Ran? && t[r] == Ran(t[f].batch, x, false, a)
    && t[f].Flushed? && !t[f].failed
    && (forall k :: 0 <= k < |t| && t[k].Ran? && t[k].batch == t[f].batch ==> k < f && !t[k].failed)
    && (forall k :: 0 <= k < |t| && t[k].After? && t[k].id == x ==> f < k)
    && (forall j: nat :: After(t[f].batch, x, j) in t <==> j < a)
  }

  lemma {:induction false} EffectFollowsFlush(t: seq<Event>, r: nat, f: nat, k: nat)
    requires TraceOK(t) && r < |t| && f < |t| && k < |t|
    requires t[r].Ran? && t[f].Flushed? && t[r].batch == t[f].batch
    requires t[k].After? && t[k].id == t[r].id
    ensures f < k
  {
    var e := t[k];
    assert Justified(t[..k], e);
    var a: nat :| e.j < a && Ran(e.batch, e.id, false, a) in t[..k];
    var r' :| 0 <= r' < k && t[r'] == Ran(e.batch, e.id, false, a);
    var f' :| 0 <= f' < k && t[f'] == Flushed(e.batch, false);
    if r' < r { TraceOrdered(t, r', r); } else if r < r' { TraceOrdered(t, r, r'); }
    if f' < f { TraceOrdered(t, f', f); } else if f < f' { TraceOrdered(t, f, f'); }
  }

  lemma {:induction false} TraceEffectsOrdered(t: seq<Event>, i: nat, k: nat)
    requires TraceOK(t) && i < k < |t|
    requires t[i].After? && t[k].After? && t[i].id == t[k].id && t[i].batch == t[k].batch
    ensures t[i].j < t[k].j
  {
    assert Justified(t[..k], t[k]);
    EarlierInPrefix(t, i, k);
  }

  lemma RunSucceeded(t: seq<Event>, b: nat, k: nat)
    requires NoFailure(t, b) && k < |t| && t[k].Ran? && t[k].batch == b
    ensures !t[k].failed
  {
    assert t[k] in t && t[k] == Ran(b, t[k].id, t[k].failed, t[k].after);
  }

  lemma {:induction false} AckedSomewhere(t: seq<Event>, x: nat)
    requires TraceOK(t) && Acked(t, x)
    ensures exists a: nat, r: nat, f: nat :: AckedAt(t, x, a, r, f)
  {
    var b: nat, a: nat :| AckedIn(t, x, b, a);
    var r :| 0 <= r < |t| && t[r] == Ran(b, x, false, a);
    var f :| 0 <= f < |t| && t[f] == Flushed(b, false);
    forall k | 0 <= k < |t| && t[k].Ran? && t[k].batch == b
      ensures k < f && !t[k].failed
    {
      if f < k { TraceOrdered(t, f, k); }
      RunSucceeded(t, b, k);
    }
    forall k | 0 <= k < |t| && t[k].After? && t[k].id == x
      ensures f < k
    {
      EffectFollowsFlush(t, r, f, k);
    }
    assert AckedAt(t, x, a, r, f);
  }

  /** A nil acknowledgement means what it should: in every reachable state, a work that
      is finished without error ran, and its group was flushed, both without error and
      in this order, with no failed run in the group and all its effects done after. */
  lemma {:induction false} NilAcknowledgement(states: seq<State>, steps: seq<Step>, n: nat, x: nat)
    requires IsRun(states, steps) && n <= |steps|
    requires x < |states[n].core.works|
    requires states[n].core.works[x].finished && !states[n].core.works[x].failed
    ensures exists a: nat, r: nat, f: nat :: AckedAt(states[n].trace, x, a, r, f)
  {
    RunKeepsInv(states, steps, n);
    AckedSomewhere(states[n].trace, x);
  }

  /** A work that its caller took back before its start ends with an error, and is never
      run, not even by the group that had already collected it. */
  lemma {:induction false} CancelledNeverRuns(states: seq<State>, steps: seq<Step>, n: nat, x: nat)
    requires IsRun(states, steps) && n <= |steps|
    requires x < |states[n].core.works| && !states[n].core.works[x].started
    ensures forall b: nat, f: bool, a: nat :: Ran(b, x, f, a) !in states[n].trace
    ensures states[n].core.works[x].finished ==> states[n].core.works[x].failed
  {
    RunKeepsInv(states, steps, n);
  }

  // ------------------------------------------------------------ effects

  /** Works that have had an effect are free of error. */
  ghost predicate EffectsClean(c: Core, t: seq<Event>)
  {
    forall b: nat, x: nat, j: nat :: After(b, x, j) in t ==>
      x < |c.works| && c.works[x].started && !c.works[x].failed
  }

  lemma {:induction false} EffectHasRun(t: seq<Event>, b: nat, x: nat, j: nat)
    requires TraceOK(t) && After(b, x, j) in t
    ensures exists a: nat :: j < a && Ran(b, x, false, a) in t
  {
    var k :| 0 <= k < |t| && t[k] == After(b, x, j);
    assert Justified(t[..k], t[k]);
    var a: nat :| j < a && Ran(b, x, false, a) in t[..k];
    assert Ran(b, x, false, a) in t;
  }

  lemma {:induction false} OneRunPerWork(t: seq<Event>, x: nat, b: nat, f: bool, a: nat, b': nat, f': bool, a': nat)
    requires TraceOK(t) && Ran(b, x, f, a) in t && Ran(b', x, f', a') in t
    ensures b == b' && f == f' && a == a'
  {
    var i :| 0 <= i < |t| && t[i] == Ran(b, x, f, a);
    var k :| 0 <= k < |t| && t[k] == Ran(b', x, f', a');
    if i < k { TraceOrdered(t, i, k); } else if k < i { TraceOrdered(t, k, i); }
  }

  /** Before its run is recorded a work has had no effect. */
  lemma {:induction false} NoEffectBeforeRun(v: View)
    requires ViewInv(v) && v.worker.Running?
    ensures forall b: nat, j: nat :: After(b, v.worker.group[|v.worker.stages|], j) !in v.trace
  {
    var id := v.worker.group[|v.worker.stages|];
    RanBeforeRest(v.trace, v.worker.group, |v.worker.stages|);
    forall b: nat, j: nat | After(b, id, j) in v.trace
      ensures false
    {
      EffectHasRun(v.trace, b, id, j);
    }
  }

  /** Before its errors are joined a work has had no effect. */
  lemma {:induction false} NoEffectBeforeJoin(v: View)
    requires ViewInv(v) && EffectsClean(v.core, v.trace) && v.worker.Settling?
    requires v.worker.i < |v.worker.group| && !v.worker.joined && v.worker.stages[v.worker.i].Stage?
    ensures forall b: nat, j: nat :: After(b, v.worker.group[v.worker.i], j) !in v.trace
  {
    var Settling(b, group, stages, flushErr, i, joined, j) := v.worker;
    forall b': nat, j': nat | After(b', group[i], j') in v.trace
      ensures false
    {
      assert Settled(v.core, v.trace, b, group[i], stages[i], flushErr, false, 0);
      EffectHasRun(v.trace, b', group[i], j');
      var a: nat :| j' < a && Ran(b', group[i], false, a) in v.trace;
      OneRunPerWork(v.trace, group[i], b', false, a, b, false, stages[i].after);
    }
  }

  lemma {:induction false} SettleKeepsEffectsClean(v: View)
    requires ViewInv(v) && EffectsClean(v.core, v.trace) && v.worker.Settling?
    ensures EffectsClean(Settle(v).core, Settle(v).trace)
  {
    if v.worker.i < |v.worker.group| && !v.worker.joined && v.worker.stages[v.worker.i].Stage? {
      NoEffectBeforeJoin(v);
    }
  }

  lemma {:induction false} WorkerKeepsEffectsClean(v: View, o: Oracle)
    requires ViewInv(v) && EffectsClean(v.core, v.trace) && !(v.worker.AtTop? && v.core.pending == [])
    ensures EffectsClean(WorkerNext(v, o).core, WorkerNext(v, o).trace)
  {
    match v.worker
    case AtTop =>
    case Starting(_, _, _, _) =>
    case Running(_, group, stages, _) => NoEffectBeforeRun(v);
    case Settling(_, _, _, _, _, _, _) => SettleKeepsEffectsClean(v);
    case Releasing(group) => ReleaseGroupFinishes(v.core, group);
  }

  lemma {:induction false} StepKeepsEffectsClean(s: State, step: Step)
    requires Inv(s) && EffectsClean(s.core, s.trace) && Enabled(s, step)
    ensures EffectsClean(Next(s, step).core, Next(s, step).trace)
  {
    match step
    case Worker(k, o) =>
      var v := View(s.core, s.workers[k], s.trace, s.batches);
      if !(v.worker.AtTop? && s.core.pending == []) {
        WorkerKeepsEffectsClean(v, o);
      }
    case Submit(cancelled, rows, size, now) => EnqueueIsCallerStep(s.core, cancelled, rows, size, now, []);
    case CancelWait(id) => WithdrawIsCallerStep(s.core, id, []);
    case _ =>
  }

  lemma {:induction false} RunKeepsEffectsClean(states: seq<State>, steps: seq<Step>, n: nat)
    requires IsRun(states, steps) && n <= |steps|
    ensures EffectsClean(states[n].core, states[n].trace)
  {
    if n > 0 {
      RunKeepsEffectsClean(states, steps, n - 1);
      RunKeepsInv(states, steps, n - 1);
      StepKeepsEffectsClean(states[n - 1], steps[n - 1]);
    }
  }

  /** In every reachable state: works have run in the order of their acceptance, each at
      most once, group by group, and no group was flushed before its last run. */
  lemma {:induction false} HistoryOrdered(states: seq<State>, steps: seq<Step>, n: nat, i: nat, k: nat)
    requires IsRun(states, steps) && n <= |steps| && i < k < |states[n].trace|
    ensures var t := states[n].trace;
      && (t[i].Ran? && t[k].Ran? ==> t[i].id < t[k].id && t[i].batch <= t[k].batch)
      && (t[i].Flushed? && t[k].Flushed? ==> t[i].batch < t[k].batch)
      && (t[i].Flushed? && t[k].Ran? ==> t[i].batch < t[k].batch)
  {
    RunKeepsInv(states, steps, n);
    TraceOrdered(states[n].trace, i, k);
  }

  /** In every reachable state the effects of one work have run in the order in which
      they were staged. */
  lemma {:induction false} EffectsInStagedOrder(states: seq<State>, steps: seq<Step>, n: nat, i: nat, k: nat)
    requires IsRun(states, steps) && n <= |steps| && i < k < |states[n].trace|
    requires states[n].trace[i].After? && states[n].trace[k].After? && states[n].trace[i].id == states[n].trace[k].id
    ensures states[n].trace[i].j < states[n].trace[k].j
  {
    RunKeepsInv(states, steps, n);
    var t := states[n].trace;
    var e, f := t[i], t[k];
    assert e in t && f in t;
    EffectHasRun(t, e.batch, e.id, e.j);
    EffectHasRun(t, f.batch, f.id, f.j);
    var a: nat :| e.j < a && Ran(e.batch, e.id, false, a) in t;
    var b: nat :| f.j < b && Ran(f.batch, f.id, false, b) in t;
    OneRunPerWork(t, e.id, e.batch, false, a, f.batch, false, b);
    TraceEffectsOrdered(t, i, k);
  }

  /** Effects run only for works that end up acknowledged without error, strictly after
      the clean flush of their group. */
  lemma {:induction false} EffectsOnlyWhenClean(states: seq<State>, steps: seq<Step>, n: nat, k: nat)
    requires IsRun(states, steps) && n <= |steps|
    requires k < |states[n].trace| && states[n].trace[k].After?
    ensures var c, t := states[n].core, states[n].trace; var e := t[k];
      && Flushed(e.batch, false) in t[..k] && NoFailure(t[..k], e.batch)
      && (exists a: nat :: e.j < a && Ran(e.batch, e.id, false, a) in t[..k])
      && e.id < |c.works| && !c.works[e.id].failed
      && (c.works[e.id].finished ==> Acked(t, e.id))
  {
    RunKeepsInv(states, steps, n);
    RunKeepsEffectsClean(states, steps, n);
    var t := states[n].trace;
    assert Justified(t[..k], t[k]);
    assert After(t[k].batch, t[k].id, t[k].j) in t;
  }
}
