/** The ingest batcher as a system of callers, workers, settings changes and Close,
    interleaved at its critical sections. */
module BatchRuns {
  import opened BatchCore

  /** What a run left behind: whether the work was run at all, and how many effects
      it staged for after the flush. `NoStage` marks a work cancelled before its start. */
  datatype Stage = NoStage | Stage(ran: bool, after: nat)

  /** A worker goroutine between two steps. `stages` grows along `group`; while
      settling, `i` and `j` count the works and effects already dealt with. */
  datatype Worker =
    | AtTop
    | Starting(batch: nat, group: seq<nat>, stages: seq<Stage>, writeErr: bool)
    | Running(batch: nat, group: seq<nat>, stages: seq<Stage>, writeErr: bool)
    | Settling(batch: nat, group: seq<nat>, stages: seq<Stage>, flushErr: bool, i: nat, joined: bool, j: nat)
    | Releasing(group: seq<nat>)

  datatype Event =
    | Ran(batch: nat, id: nat, failed: bool, after: nat)
    | Flushed(batch: nat, failed: bool)
    | After(batch: nat, id: nat, j: nat)

  /** `batches` counts the groups taken; `closers` holds, for each call of Close, the
      number of the idle channel it waits for, or 0 if it returned at once. */
  datatype State = State(core: Core, workers: seq<Worker>, trace: seq<Event>, batches: nat, closers: seq<nat>)

  /** What the outside decides: the clock, and the outcomes of a run and of a flush. */
  datatype Oracle = Oracle(now: int, window: int, runFailed: bool, after: nat, flushFailed: bool)

  datatype Step =
    | Submit(cancelled: bool, rows: nat, size: nat, now: int)
    | CancelContext(id: nat)
    | CancelWait(id: nat)
    | Reconfigure(requests: int, megabytes: int)
    | Shutdown
    | Worker(k: nat, o: Oracle)

  const INITIAL := State(Core(256, 0x400_0000, [], [], 0, 0, false, false, 0, 0), [], [], 0, [])

  // ------------------------------------------------------------ steps

  /** The worker's part of a state. */
  datatype View = View(core: Core, worker: Worker, trace: seq<Event>, batches: nat)

  predicate Usable(v: View)
  {
    && Within(v.core.pending, |v.core.works|)
    && match v.worker
       case AtTop => true
       case Starting(_, group, stages, _) => Within(group, |v.core.works|) && |stages| <= |group|
       case Running(_, group, stages, _) => Within(group, |v.core.works|) && |stages| < |group|
       case Settling(_, group, stages, _, i, joined, _) =>
         Within(group, |v.core.works|) && |stages| == |group| && i <= |group| && (joined ==> i < |group|)
       case Releasing(group) => Within(group, |v.core.works|)
  }

  /** At the top of the loop, with work pending. */
  function Collect(v: View, o: Oracle): View
    requires Usable(v) && v.worker.AtTop? && v.core.pending != []
  {
    if !Ready(v.core, o.now, o.window) then v
    else
      var (c', group) := TakeGroup(v.core);
      View(c', Starting(v.batches, group, [], false), v.trace, v.batches + 1)
  }

  /** Starts the next work of the group, or flushes when all have had their turn. */
  function StartNext(v: View, o: Oracle): View
    requires Usable(v) && v.worker.Starting?
  {
    var Starting(b, group, stages, writeErr) := v.worker;
    if |stages| == |group|
    then v.(worker := Settling(b, group, stages, writeErr || o.flushFailed, 0, false, 0),
            trace := v.trace + [Flushed(b, o.flushFailed)])
    else if v.core.works[group[|stages|]].finished
    then v.(worker := Starting(b, group, stages + [NoStage], writeErr))
    else v.(core := BatchCore.Start(v.core, group[|stages|]), worker := Running(b, group, stages, writeErr))
  }

  /** Runs the started work, unless its caller's context is already done. */
  function RunOne(v: View, o: Oracle): View
    requires Usable(v) && v.worker.Running?
  {
    var Running(b, group, stages, writeErr) := v.worker;
    var id := group[|stages|];
    if v.core.works[id].cancelled
    then v.(core := SetError(v.core, id, true), worker := Starting(b, group, stages + [Stage(false, 0)], writeErr))
    else v.(core := SetError(v.core, id, o.runFailed),
            worker := Starting(b, group, stages + [Stage(true, o.after)], writeErr || o.runFailed),
            trace := v.trace + [Ran(b, id, o.runFailed, o.after)])
  }

  /** After the flush: joins the flush error into each work's own, and runs the
      effects of the works that are then free of error. */
  function Settle(v: View): View
    requires Usable(v) && v.worker.Settling?
  {
    var Settling(b, group, stages, flushErr, i, joined, j) := v.worker;
    if i == |group| then v.(worker := Releasing(group))
    else if !joined then
      if stages[i].NoStage? then v.(worker := v.worker.(i := i + 1))
      else v.(core := SetError(v.core, group[i], v.core.works[group[i]].failed || flushErr),
              worker := v.worker.(joined := true, j := 0))
    else if v.core.works[group[i]].failed || stages[i].NoStage? || j >= stages[i].after
    then v.(worker := v.worker.(i := i + 1, joined := false))
    else v.(worker := v.worker.(j := j + 1), trace := v.trace + [After(b, group[i], j)])
  }

  function WorkerNext(v: View, o: Oracle): View
    requires Usable(v) && !(v.worker.AtTop? && v.core.pending == [])
  {
    match v.worker
    case AtTop => Collect(v, o)
    case Starting(_, _, _, _) => StartNext(v, o)
    case Running(_, _, _, _) => RunOne(v, o)
    case Settling(_, _, _, _, _, _, _) => Settle(v)
    case Releasing(group) => v.(core := ReleaseGroup(v.core, group), worker := AtTop)
  }

  predicate Enabled(s: State, step: Step)
  {
    match step
    case CancelContext(id) => id < |s.core.works|
    case CancelWait(id) => id < |s.core.works| && s.core.works[id].cancelled
    case Worker(k, _) => k < |s.workers| && Usable(View(s.core, s.workers[k], s.trace, s.batches))
    case _ => true
  }

  function Next(s: State, step: Step): State
    requires Enabled(s, step)
  {
    match step
    case Submit(cancelled, rows, size, now) =>
      var c' := Enqueue(s.core, cancelled, rows, size, now);
      s.(core := c', workers := if c'.workers > s.core.workers then s.workers + [AtTop] else s.workers)
    case CancelContext(id) =>
      s.(core := s.core.(works := s.core.works[id := s.core.works[id].(cancelled := true)]))
    case CancelWait(id) => s.(core := Withdraw(s.core, id))
    case Reconfigure(requests, megabytes) => s.(core := Configure(s.core, requests, megabytes))
    case Shutdown =>
      s.(core := s.core.(closed := true), closers := s.closers + [if s.core.running then s.core.workers else 0])
    case Worker(k, o) =>
      if s.workers[k].AtTop? && s.core.pending == []
      then s.(core := Exit(s.core), workers := s.workers[..k] + s.workers[k + 1..])
      else
        var v := WorkerNext(View(s.core, s.workers[k], s.trace, s.batches), o);
        State(v.core, s.workers[k := v.worker], v.trace, v.batches, s.closers)
  }

  /** A run of the system: every step enabled in the state it is taken in. */
  ghost predicate IsRun(states: seq<State>, steps: seq<Step>)
  {
    && |states| == |steps| + 1
    && states[0] == INITIAL
    && forall i {:trigger steps[i]} :: 0 <= i < |steps| ==>
         Enabled(states[i], steps[i]) && states[i + 1] == Next(states[i], steps[i])
  }

  // ------------------------------------------------------------ scheduling

  /** Every unfinished work is pending or in `group`. */
  ghost predicate Covered(c: Core, group: seq<nat>)
  {
    forall x :: 0 <= x < |c.works| && !c.works[x].finished ==> x in c.pending || x in group
  }

  /** The group under way: older than everything pending; its first `n` works have had
      their turn, and the others have not been started. */
  ghost predicate GroupInv(c: Core, group: seq<nat>, n: nat)
  {
    && Within(group, |c.works|)
    && Increasing(group + c.pending)
    && n <= |group|
    && (forall k :: n <= k < |group| ==> !c.works[group[k]].started)
    && (forall k :: 0 <= k < n && !c.works[group[k]].started ==> c.works[group[k]].finished)
    && (forall k :: 0 <= k < |group| && c.works[group[k]].started ==> !c.works[group[k]].finished)
    && Covered(c, group)
  }

  ghost predicate StagesInv(c: Core, group: seq<nat>, stages: seq<Stage>)
    requires |stages| <= |group| && Within(group, |c.works|)
  {
    forall k :: 0 <= k < |stages| ==> (stages[k].NoStage? <==> !c.works[group[k]].started)
  }

  ghost predicate WorkerInv(c: Core, w: Worker)
  {
    match w
    case AtTop => Covered(c, [])
    case Starting(_, group, stages, _) => GroupInv(c, group, |stages|) && StagesInv(c, group, stages)
    case Running(_, group, stages, _) =>
      |stages| < |group| && GroupInv(c, group, |stages| + 1) && StagesInv(c, group, stages)
      && c.works[group[|stages|]].started
    case Settling(_, group, stages, _, i, joined, _) =>
      GroupInv(c, group, |group|) && |stages| == |group| && StagesInv(c, group, stages)
      && i <= |group| && (joined ==> i < |group| && stages[i].Stage?)
    case Releasing(group) => GroupInv(c, group, |group|)
  }

  ghost predicate SchedInv(s: State)
  {
    && CoreInv(s.core)
    && |s.workers| == (if s.core.running then 1 else 0)
    && s.core.workers == s.core.exits + |s.workers|
    && (s.workers == [] ==> s.core.pending == [] && Covered(s.core, []))
    && (s.workers != [] ==> WorkerInv(s.core, s.workers[0]))
    && (s.closers != [] ==> s.core.closed)
    && (forall k :: 0 <= k < |s.closers| ==>
          if s.closers[k] == 0 then !s.core.running else s.closers[k] == s.core.workers)
  }

  ghost function GroupOf(w: Worker): seq<nat>
  {
    if w.AtTop? then [] else w.group
  }

  ghost predicate Untouched(w: Work, w': Work)
  {
    && w'.started == w.started
    && (w.finished ==> w'.finished && w'.failed == w.failed)
    && (w.started ==> w'.finished == w.finished && w'.failed == w.failed)
    && (w'.finished && !w'.failed ==> w.finished)
  }

  /** What callers may do to the works behind a worker's back: accept new ones at the
      end of the queue, or finish some that were never started. */
  ghost predicate CallerStep(c: Core, c': Core, group: seq<nat>)
  {
    && |c.works| <= |c'.works|
    && (forall x :: 0 <= x < |c.works| ==> Untouched(c.works[x], c'.works[x]))
    && (forall x :: |c.works| <= x < |c'.works| ==> !c'.works[x].finished)
    && (forall p :: 0 <= p < |c'.pending| ==> c'.pending[p] in c.pending || c'.pending[p] >= |c.works|)
    && (Increasing(group + c.pending) && Within(group, |c.works|) ==> Increasing(group + c'.pending))
    && (Covered(c, group) ==> Covered(c', group))
  }

  lemma CallerStepKeepsWorker(c: Core, c': Core, w: Worker)
    requires WorkerInv(c, w) && CallerStep(c, c', GroupOf(w))
    ensures WorkerInv(c', w)
  {
  }

  lemma EnqueueIsCallerStep(c: Core, cancelled: bool, rows: nat, size: nat, now: int, group: seq<nat>)
    requires CoreInv(c)
    ensures CallerStep(c, Enqueue(c, cancelled, rows, size, now), group)
  {
    var c' := Enqueue(c, cancelled, rows, size, now);
    if Admit(c, cancelled, size).Accepted? {
      var before, after := group + c.pending, group + c'.pending;
      assert after == before + [|c.works|];
      if Increasing(before) && Within(group, |c.works|) {
        forall i | 0 <= i < |before|
          ensures before[i] < |c.works|
        {
          assert i >= |group| ==> before[i] == c.pending[i - |group|];
        }
      }
      assert forall x :: x in c.pending ==> x in c'.pending;
      assert c'.pending[|c.pending|] == |c.works|;
    }
  }

  lemma {:induction false} WithoutBehind(group: seq<nat>, pending: seq<nat>, i: nat)
    requires i < |pending|
    ensures var all, at := group + pending, |group| + i;
      group + (pending[..i] + pending[i + 1..]) == all[..at] + all[at + 1..]
  {
    var all, at := group + pending, |group| + i;
    assert all[..at] == group + pending[..i];
    assert all[at + 1..] == pending[i + 1..];
  }

  lemma {:induction false} RemoveBehindGroup(group: seq<nat>, pending: seq<nat>, id: nat)
    requires Increasing(group + pending)
    ensures Increasing(group + Remove(pending, id))
  {
    var i := IndexOf(pending, id);
    if i < |pending| {
      WithoutBehind(group, pending, i);
      IncreasingWithout(group + pending, |group| + i);
      assert Remove(pending, id) == pending[..i] + pending[i + 1..];
    } else {
      assert Remove(pending, id) == pending;
    }
  }

  lemma {:induction false} WithdrawIsCallerStep(c: Core, id: nat, group: seq<nat>)
    requires CoreInv(c) && id < |c.works|
    ensures CallerStep(c, Withdraw(c, id), group)
  {
    if !c.works[id].started && !c.works[id].finished {
      RemoveExact(c.pending, id);
      if Increasing(group + c.pending) {
        RemoveBehindGroup(group, c.pending, id);
      }
      var c' := Withdraw(c, id);
      assert c'.pending == Remove(c.pending, id);
      assert forall x :: 0 <= x < |c.works| && x != id ==> c'.works[x] == c.works[x];
    }
  }

  // ------------------------------------------------------------ worker steps

  lemma {:induction false} CollectKeeps(v: View, o: Oracle)
    requires Usable(v) && v.worker.AtTop? && v.core.pending != []
    requires CoreInv(v.core) && WorkerInv(v.core, v.worker)
    ensures CoreInv(Collect(v, o).core) && WorkerInv(Collect(v, o).core, Collect(v, o).worker)
  {
    if Ready(v.core, o.now, o.window) {
      GroupIsFittingPrefix(v.core);
      var (c', group) := TakeGroup(v.core);
      TakenCovers(v.core, c', group);
    }
  }

  lemma {:induction false} TakenCovers(c: Core, c': Core, group: seq<nat>)
    requires CoreInv(c) && Covered(c, [])
    requires c'.works == c.works && group + c'.pending == c.pending
    ensures GroupInv(c', group, 0)
  {
    assert forall k :: 0 <= k < |group| ==> group[k] == c.pending[k];
    forall x | x in c.pending
      ensures x in c'.pending || x in group
    {
      assert x in group + c'.pending;
    }
  }

  lemma {:induction false} StartNextKeeps(v: View, o: Oracle)
    requires Usable(v) && v.worker.Starting?
    requires CoreInv(v.core) && WorkerInv(v.core, v.worker)
    ensures CoreInv(StartNext(v, o).core) && WorkerInv(StartNext(v, o).core, StartNext(v, o).worker)
  {
    var Starting(b, group, stages, writeErr) := v.worker;
    if |stages| < |group| {
      GroupDisjoint(v.core, group);
      if !v.core.works[group[|stages|]].finished {
        FlagKeeps(v.core, group[|stages|], v.core.works[group[|stages|]].(started := true));
      }
    }
  }

  /** Works of the group are distinct and no longer pending. */
  lemma {:induction false} GroupDisjoint(c: Core, group: seq<nat>)
    requires Increasing(group + c.pending)
    ensures forall k :: 0 <= k < |group| ==> group[k] !in c.pending
    ensures forall j, k :: 0 <= j < k < |group| ==> group[j] < group[k]
  {
    var all := group + c.pending;
    forall j, k | 0 <= j < k < |group|
      ensures group[j] < group[k]
    {
      assert all[j] < all[k];
    }
    forall k, p | 0 <= k < |group| && 0 <= p < |c.pending|
      ensures group[k] != c.pending[p]
    {
      assert all[k] < all[|group| + p];
    }
  }

  /** Setting a work's error leaves the schedule alone. */
  lemma {:induction false} SetErrorKeeps(c: Core, group: seq<nat>, n: nat, id: nat, failed: bool)
    requires CoreInv(c) && GroupInv(c, group, n) && id in group
    ensures CoreInv(SetError(c, id, failed)) && GroupInv(SetError(c, id, failed), group, n)
  {
    GroupDisjoint(c, group);
    FlagKeeps(c, id, c.works[id].(failed := failed));
  }

  lemma {:induction false} RunOneKeeps(v: View, o: Oracle)
    requires Usable(v) && v.worker.Running?
    requires CoreInv(v.core) && WorkerInv(v.core, v.worker)
    ensures CoreInv(RunOne(v, o).core) && WorkerInv(RunOne(v, o).core, RunOne(v, o).worker)
  {
    var Running(b, group, stages, writeErr) := v.worker;
    var id := group[|stages|];
    SetErrorKeeps(v.core, group, |stages| + 1, id, v.core.works[id].cancelled || o.runFailed);
  }

  lemma {:induction false} SettleKeeps(v: View)
    requires Usable(v) && v.worker.Settling?
    requires CoreInv(v.core) && WorkerInv(v.core, v.worker)
    ensures CoreInv(Settle(v).core) && WorkerInv(Settle(v).core, Settle(v).worker)
  {
    var Settling(b, group, stages, flushErr, i, joined, j) := v.worker;
    if i < |group| && !joined && stages[i].Stage? {
      SetErrorKeeps(v.core, group, |group|, group[i], v.core.works[group[i]].failed || flushErr);
    }
  }

  /** Releasing a group finishes all of it and touches no other work's flags. */
  lemma {:induction false} ReleaseGroupFinishes(c: Core, group: seq<nat>)
    requires Within(group, |c.works|)
    ensures var c' := ReleaseGroup(c, group);
      && c'.pending == c.pending && c'.closed == c.closed && c'.running == c.running
      && c'.workers == c.workers && c'.exits == c.exits
      && (forall x :: 0 <= x < |c.works| ==>
            && c'.works[x].failed == c.works[x].failed && c'.works[x].started == c.works[x].started
            && (c'.works[x].finished <==> c.works[x].finished || x in group))
    decreases |group|
  {
    if group != [] {
      ReleaseGroupFinishes(if c.works[group[0]].finished then c else Release(c, group[0]), group[1..]);
    }
  }

  lemma {:induction false} ReleasingKeeps(c: Core, group: seq<nat>)
    requires CoreInv(c) && WorkerInv(c, Releasing(group))
    ensures CoreInv(ReleaseGroup(c, group)) && WorkerInv(ReleaseGroup(c, group), AtTop)
  {
    GroupDisjoint(c, group);
    ReleaseGroupKeeps(c, group);
    ReleaseGroupFinishes(c, group);
  }

  lemma {:induction false} WorkerNextKeeps(v: View, o: Oracle)
    requires Usable(v) && !(v.worker.AtTop? && v.core.pending == [])
    requires CoreInv(v.core) && WorkerInv(v.core, v.worker)
    ensures var v' := WorkerNext(v, o); CoreInv(v'.core) && WorkerInv(v'.core, v'.worker)
  {
    match v.worker
    case AtTop => CollectKeeps(v, o);
    case Starting(_, _, _, _) => StartNextKeeps(v, o);
    case Running(_, _, _, _) => RunOneKeeps(v, o);
    case Settling(_, _, _, _, _, _, _) => SettleKeeps(v);
    case Releasing(group) => ReleasingKeeps(v.core, group);
  }

  /** Worker steps leave the scheduling flags alone. */
  lemma {:induction false} WorkerNextFrame(v: View, o: Oracle)
    requires Usable(v) && !(v.worker.AtTop? && v.core.pending == [])
    ensures var c, c' := v.core, WorkerNext(v, o).core;
      && c'.closed == c.closed && c'.running == c.running
      && c'.workers == c.workers && c'.exits == c.exits && |c'.works| == |c.works|
  {
    if v.worker.Releasing? {
      ReleaseGroupFinishes(v.core, v.worker.group);
    }
  }

  // ------------------------------------------------------------ whole steps

  lemma {:induction false} SubmitKeeps(s: State, cancelled: bool, rows: nat, size: nat, now: int)
    requires SchedInv(s)
    ensures SchedInv(Next(s, Submit(cancelled, rows, size, now)))
  {
    EnqueueKeeps(s.core, cancelled, rows, size, now);
    if s.workers != [] {
      EnqueueIsCallerStep(s.core, cancelled, rows, size, now, GroupOf(s.workers[0]));
      CallerStepKeepsWorker(s.core, Enqueue(s.core, cancelled, rows, size, now), s.workers[0]);
    } else {
      EnqueueIsCallerStep(s.core, cancelled, rows, size, now, []);
    }
  }

  lemma {:induction false} CancelWaitKeeps(s: State, id: nat)
    requires SchedInv(s) && id < |s.core.works| && s.core.works[id].cancelled
    ensures SchedInv(Next(s, CancelWait(id)))
  {
    WithdrawKeeps(s.core, id);
    if s.workers != [] {
      WithdrawIsCallerStep(s.core, id, GroupOf(s.workers[0]));
      CallerStepKeepsWorker(s.core, Withdraw(s.core, id), s.workers[0]);
    }
  }

  lemma {:induction false} CancelContextKeeps(s: State, id: nat)
    requires SchedInv(s) && id < |s.core.works|
    ensures SchedInv(Next(s, CancelContext(id)))
  {
    var w := s.core.works[id].(cancelled := true);
    FlagKeeps(s.core, id, w);
    if s.workers != [] {
      CallerStepKeepsWorker(s.core, s.core.(works := s.core.works[id := w]), s.workers[0]);
    }
  }

  lemma {:induction false} WorkKeeps(s: State, k: nat, o: Oracle)
    requires SchedInv(s) && Enabled(s, Step.Worker(k, o))
    ensures SchedInv(Next(s, Step.Worker(k, o)))
  {
    var v := View(s.core, s.workers[k], s.trace, s.batches);
    if !(v.worker.AtTop? && s.core.pending == []) {
      WorkerNextKeeps(v, o);
      WorkerNextFrame(v, o);
    }
  }

  lemma {:induction false} SettingKeeps(s: State, step: Step)
    requires SchedInv(s) && (step.Shutdown? || step.Reconfigure?)
    ensures SchedInv(Next(s, step))
  {
    if s.workers != [] {
      CallerStepKeepsWorker(s.core, Next(s, step).core, s.workers[0]);
    }
  }

  lemma {:induction false} StepKeepsSched(s: State, step: Step)
    requires SchedInv(s) && Enabled(s, step)
    ensures SchedInv(Next(s, step))
  {
    match step
    case Submit(cancelled, rows, size, now) => SubmitKeeps(s, cancelled, rows, size, now);
    case CancelContext(id) => CancelContextKeeps(s, id);
    case CancelWait(id) => CancelWaitKeeps(s, id);
    case Worker(k, o) => WorkKeeps(s, k, o);
    case _ => SettingKeeps(s, step);
  }
}
