/** What the batcher's history of runs, flushes and effects can look like. */
module BatchTrace {
  import opened BatchCore
  import opened BatchRuns

  ghost predicate NoFailure(t: seq<Event>, b: nat)
  {
    forall x: nat, a: nat :: Ran(b, x, true, a) !in t
  }

  /** Exactly the first `n` staged effects of the work have run. */
  ghost predicate EffectsDone(t: seq<Event>, b: nat, x: nat, n: nat)
  {
    forall j: nat :: After(b, x, j) in t <==> j < n
  }

  /** What must already have happened for `e` to happen next. */
  ghost predicate Justified(t: seq<Event>, e: Event)
  {
    match e
    case Ran(b, x, _, _) =>
      // works run once, in acceptance order, and before their group's flush
      && (forall b': nat, x': nat, f': bool, a': nat :: Ran(b', x', f', a') in t ==> x' < x && b' <= b)
      && (forall b': nat, f': bool :: Flushed(b', f') in t ==> b' < b)
    case Flushed(b, _) =>
      // one flush per group, in order, after every run so far
      && (forall b': nat, x': nat, f': bool, a': nat :: Ran(b', x', f', a') in t ==> b' <= b)
      && (forall b': nat, f': bool :: Flushed(b', f') in t ==> b' < b)
    case After(b, x, j) =>
      // effects in staged order, of a clean run, after the clean flush of a clean group
      && Flushed(b, false) in t && NoFailure(t, b)
      && (exists a: nat :: j < a && Ran(b, x, false, a) in t)
      && EffectsDone(t, b, x, j)
  }

  ghost predicate TraceOK(t: seq<Event>)
  {
    forall k :: 0 <= k < |t| ==> Justified(t[..k], t[k])
  }

  /** What a nil acknowledgement means: the work's own run succeeded, so did every run
      of its group and the group's flush, and all the effects it staged have run. */
  ghost predicate Acked(t: seq<Event>, x: nat)
  {
    exists b: nat, a: nat :: AckedIn(t, x, b, a)
  }

  ghost predicate AckedIn(t: seq<Event>, x: nat, b: nat, a: nat)
  {
    Ran(b, x, false, a) in t && Flushed(b, false) in t && NoFailure(t, b) && EffectsDone(t, b, x, a)
  }

  ghost predicate TraceInv(c: Core, t: seq<Event>, batches: nat)
  {
    && TraceOK(t)
    && (forall b: nat, x: nat, f: bool, a: nat :: Ran(b, x, f, a) in t ==>
          b < batches && x < |c.works| && c.works[x].started)
    && (forall b: nat, f: bool :: Flushed(b, f) in t ==> b < batches)
    && (forall b: nat, x: nat, j: nat :: After(b, x, j) in t ==> b < batches)
    && (forall x :: 0 <= x < |c.works| && c.works[x].finished && !c.works[x].failed ==> Acked(t, x))
  }

  /** Everything run so far was accepted before everything in `ids`. */
  ghost predicate RanBefore(t: seq<Event>, ids: seq<nat>)
  {
    forall b: nat, x: nat, f: bool, a: nat, k: nat :: Ran(b, x, f, a) in t && k < |ids| ==> x < ids[k]
  }

  /** The group `b` under way, none of whose effects have run, with its records. */
  ghost predicate GroupOpen(c: Core, t: seq<Event>, b: nat, group: seq<nat>, stages: seq<Stage>, writeErr: bool)
    requires Within(group, |c.works|) && |stages| <= |group|
  {
    && (forall f: bool :: Flushed(b, f) !in t)
    && (forall x: nat, j: nat :: After(b, x, j) !in t)
    && (!writeErr ==> NoFailure(t, b))
    && RanBefore(t, group[|stages|..])
    && RanBefore(t, c.pending)
    && (forall k :: 0 <= k < |stages| && stages[k].Stage? && !c.works[group[k]].failed ==>
          stages[k].ran && Ran(b, group[k], false, stages[k].after) in t)
  }

  /** Work `k` of the group `b` while settling: `joined` if its errors are joined, with
      `n` of its effects done. */
  ghost predicate Settled(c: Core, t: seq<Event>, b: nat, x: nat, stage: Stage, flushErr: bool, joined: bool, n: nat)
    requires x < |c.works|
  {
    stage.Stage? && !c.works[x].failed ==>
      && stage.ran && Ran(b, x, false, stage.after) in t
      && (joined ==> !flushErr)
      && n <= stage.after
      && EffectsDone(t, b, x, n)
  }

  ghost function EffectsOf(stage: Stage): nat
  {
    if stage.NoStage? then 0 else stage.after
  }

  /** The group `b` after its flush, with the works before `i` settled. */
  ghost predicate SettlingInv(c: Core, t: seq<Event>, b: nat, group: seq<nat>, stages: seq<Stage>,
                              flushErr: bool, i: nat, joined: bool, j: nat)
    requires Within(group, |c.works|) && |stages| == |group|
  {
    && (!flushErr ==> Flushed(b, false) in t && NoFailure(t, b))
    && (forall k :: 0 <= k < |group| ==>
          Settled(c, t, b, group[k], stages[k], flushErr, k < i || (k == i && joined),
                  if k < i then EffectsOf(stages[k]) else if k == i && joined then j else 0))
  }

  ghost predicate WorkerTrace(c: Core, w: Worker, t: seq<Event>, batches: nat)
    requires WorkerInv(c, w)
  {
    match w
    case AtTop => RanBefore(t, c.pending)
    case Starting(b, group, stages, writeErr) => b + 1 == batches && GroupOpen(c, t, b, group, stages, writeErr)
    case Running(b, group, stages, writeErr) => b + 1 == batches && GroupOpen(c, t, b, group, stages, writeErr)
    case Settling(b, group, stages, flushErr, i, joined, j) =>
      && b + 1 == batches && RanBefore(t, c.pending)
      && SettlingInv(c, t, b, group, stages, flushErr, i, joined, j)
    case Releasing(group) =>
      && RanBefore(t, c.pending)
      && (forall k :: 0 <= k < |group| && c.works[group[k]].started && !c.works[group[k]].failed ==> Acked(t, group[k]))
  }

  ghost predicate HistoryInv(s: State)
    requires SchedInv(s)
  {
    && TraceInv(s.core, s.trace, s.batches)
    && (s.workers != [] ==> WorkerTrace(s.core, s.workers[0], s.trace, s.batches))
  }

  // ------------------------------------------------------------ growing histories

  lemma TraceGrows(t: seq<Event>, e: Event)
    requires TraceOK(t) && Justified(t, e)
    ensures TraceOK(t + [e])
  {
    var t' := t + [e];
    forall k | 0 <= k < |t'|
      ensures Justified(t'[..k], t'[k])
    {
      if k < |t| {
        assert t'[..k] == t[..k];
      } else {
        assert t'[..k] == t;
      }
    }
  }

  /** An acknowledgement stays justified whatever happens to other works later. */
  lemma AckedStays(t: seq<Event>, e: Event, x: nat)
    requires Acked(t, x) && Justified(t, e)
    requires e.After? ==> e.id != x
    ensures Acked(t + [e], x)
  {
    var b: nat, a: nat :| AckedIn(t, x, b, a);
    assert AckedIn(t + [e], x, b, a);
  }

  lemma TraceInvGrows(c: Core, t: seq<Event>, e: Event, batches: nat)
    requires TraceInv(c, t, batches) && Justified(t, e) && e.batch < batches
    requires e.Ran? ==> e.id < |c.works| && c.works[e.id].started
    requires e.After? ==> e.id < |c.works| && !c.works[e.id].finished
    ensures TraceInv(c, t + [e], batches)
  {
    TraceGrows(t, e);
    forall x | 0 <= x < |c.works| && c.works[x].finished && !c.works[x].failed
      ensures Acked(t + [e], x)
    {
      AckedStays(t, e, x);
    }
  }

  // ------------------------------------------------------------ callers

  lemma CallerKeepsTrace(c: Core, c': Core, t: seq<Event>, batches: nat, group: seq<nat>)
    requires TraceInv(c, t, batches) && CallerStep(c, c', group)
    ensures TraceInv(c', t, batches)
  {
  }

  lemma CallerKeepsOrder(c: Core, c': Core, t: seq<Event>, batches: nat, group: seq<nat>)
    requires TraceInv(c, t, batches) && CallerStep(c, c', group) && RanBefore(t, c.pending)
    ensures RanBefore(t, c'.pending)
  {
    forall b: nat, x: nat, f: bool, a: nat, k: nat | Ran(b, x, f, a) in t && k < |c'.pending|
      ensures x < c'.pending[k]
    {
      if c'.pending[k] in c.pending {
        var p :| 0 <= p < |c.pending| && c.pending[p] == c'.pending[k];
        assert x < c.pending[p];
      }
    }
  }

  lemma CallerKeepsWorkerTrace(c: Core, c': Core, w: Worker, t: seq<Event>, batches: nat)
    requires WorkerInv(c, w) && TraceInv(c, t, batches) && WorkerTrace(c, w, t, batches)
    requires CallerStep(c, c', GroupOf(w))
    ensures WorkerInv(c', w) && WorkerTrace(c', w, t, batches)
  {
    CallerStepKeepsWorker(c, c', w);
    CallerKeepsOrder(c, c', t, batches, GroupOf(w));
  }

  // ------------------------------------------------------------ worker steps

  ghost predicate ViewInv(v: View)
  {
    match v
    case View(c, w, t, batches) =>
      Usable(v) && CoreInv(c) && WorkerInv(c, w) && TraceInv(c, t, batches) && WorkerTrace(c, w, t, batches)
  }

  lemma {:induction false} RanBeforeSplit(t: seq<Event>, a: seq<nat>, b: seq<nat>)
    requires RanBefore(t, a + b)
    ensures RanBefore(t, a) && RanBefore(t, b)
  {
    assert forall k :: 0 <= k < |a| ==> (a + b)[k] == a[k];
    assert forall k :: 0 <= k < |b| ==> (a + b)[|a| + k] == b[k];
  }

  ghost predicate Precedes(id: nat, ids: seq<nat>)
  {
    forall k :: 0 <= k < |ids| ==> id < ids[k]
  }

  lemma {:induction false} RanBeforeGrows(t: seq<Event>, e: Event, ids: seq<nat>)
    requires RanBefore(t, ids)
    requires e.Ran? ==> Precedes(e.id, ids)
    ensures RanBefore(t + [e], ids)
  {
  }

  lemma {:induction false} RanBeforeRest(t: seq<Event>, ids: seq<nat>, n: nat)
    requires n < |ids| && RanBefore(t, ids[n..])
    ensures RanBefore(t, ids[n + 1..])
    ensures forall b: nat, x: nat, f: bool, a: nat :: Ran(b, x, f, a) in t ==> x < ids[n]
  {
    assert ids[n..] == [ids[n]] + ids[n + 1..];
    RanBeforeSplit(t, [ids[n]], ids[n + 1..]);
    assert ids[n..][0] == ids[n];
  }

  /** A fresh group of works of which none has been started. */
  lemma {:induction false} FreshGroupOpen(c: Core, t: seq<Event>, batches: nat, group: seq<nat>)
    requires TraceInv(c, t, batches) && RanBefore(t, group + c.pending) && Within(group, |c.works|)
    ensures GroupOpen(c, t, batches, group, [], false)
  {
    RanBeforeSplit(t, group, c.pending);
    assert group[0..] == group;
  }

  lemma {:induction false} TraceInvPending(c: Core, t: seq<Event>, batches: nat, more: nat, pending: seq<nat>)
    requires TraceInv(c, t, batches) && batches <= more
    ensures TraceInv(c.(pending := pending), t, more)
  {
  }

  lemma {:induction false} CollectHistory(v: View, o: Oracle)
    requires ViewInv(v) && v.worker.AtTop? && v.core.pending != []
    ensures ViewInv(Collect(v, o))
  {
    CollectKeeps(v, o);
    if Ready(v.core, o.now, o.window) {
      GroupIsFittingPrefix(v.core);
      var (c', group) := TakeGroup(v.core);
      TraceInvPending(v.core, v.trace, v.batches, v.batches, c'.pending);
      TraceInvPending(v.core, v.trace, v.batches, v.batches + 1, c'.pending);
      FreshGroupOpen(c', v.trace, v.batches, group);
    }
  }

  /** A work of the group that was cancelled before its turn is passed over. */
  lemma {:induction false} SkipRecorded(c: Core, t: seq<Event>, b: nat, group: seq<nat>, stages: seq<Stage>,
                                        writeErr: bool)
    requires Within(group, |c.works|) && |stages| < |group| && GroupOpen(c, t, b, group, stages, writeErr)
    ensures GroupOpen(c, t, b, group, stages + [NoStage], writeErr)
  {
    RanBeforeRest(t, group, |stages|);
  }

  lemma {:induction false} StartRecorded(c: Core, t: seq<Event>, batches: nat, b: nat, group: seq<nat>,
                                         stages: seq<Stage>, writeErr: bool)
    requires Within(group, |c.works|) && |stages| < |group|
    requires TraceInv(c, t, batches) && GroupOpen(c, t, b, group, stages, writeErr)
    ensures TraceInv(BatchCore.Start(c, group[|stages|]), t, batches)
    ensures GroupOpen(BatchCore.Start(c, group[|stages|]), t, b, group, stages, writeErr)
  {
  }

  lemma {:induction false} StartHistory(v: View, o: Oracle)
    requires ViewInv(v) && v.worker.Starting? && |v.worker.stages| < |v.worker.group|
    ensures ViewInv(StartNext(v, o))
  {
    StartNextKeeps(v, o);
    var Starting(b, group, stages, writeErr) := v.worker;
    if v.core.works[group[|stages|]].finished {
      SkipRecorded(v.core, v.trace, b, group, stages, writeErr);
    } else {
      StartRecorded(v.core, v.trace, v.batches, b, group, stages, writeErr);
    }
  }

  lemma {:induction false} FlushRecorded(c: Core, t: seq<Event>, b: nat, group: seq<nat>, stages: seq<Stage>,
                                         writeErr: bool, failed: bool)
    requires Within(group, |c.works|) && |stages| == |group|
    requires GroupOpen(c, t, b, group, stages, writeErr)
    ensures SettlingInv(c, t + [Flushed(b, failed)], b, group, stages, writeErr || failed, 0, false, 0)
    ensures RanBefore(t + [Flushed(b, failed)], c.pending)
  {
    RanBeforeGrows(t, Flushed(b, failed), c.pending);
  }

  lemma {:induction false} FlushHistory(v: View, o: Oracle)
    requires ViewInv(v) && v.worker.Starting? && |v.worker.stages| == |v.worker.group|
    ensures ViewInv(StartNext(v, o))
  {
    StartNextKeeps(v, o);
    var Starting(b, group, stages, writeErr) := v.worker;
    TraceInvGrows(v.core, v.trace, Flushed(b, o.flushFailed), v.batches);
    FlushRecorded(v.core, v.trace, b, group, stages, writeErr, o.flushFailed);
  }

  /** The next work of the group follows everything run so far and precedes everything
      that is still to be run. */
  lemma {:induction false} NextInOrder(c: Core, t: seq<Event>, b: nat, group: seq<nat>, stages: seq<Stage>,
                                       writeErr: bool)
    requires |stages| < |group| && GroupInv(c, group, |stages| + 1)
    requires GroupOpen(c, t, b, group, stages, writeErr)
    ensures var id := group[|stages|];
      && (forall b': nat, x: nat, f: bool, a: nat :: Ran(b', x, f, a) in t ==> x < id)
      && Precedes(id, group[|stages| + 1..]) && Precedes(id, c.pending)
      && RanBefore(t, group[|stages| + 1..])
  {
    GroupDisjoint(c, group);
    RanBeforeRest(t, group, |stages|);
    assert forall k :: 0 <= k < |c.pending| ==> (group + c.pending)[|group| + k] == c.pending[k];
    assert (group + c.pending)[|stages|] == group[|stages|];
  }

  /** Recording the run of the next work of the group. */
  lemma {:induction false} RunRecorded(c: Core, t: seq<Event>, batches: nat, b: nat, group: seq<nat>,
                                       stages: seq<Stage>, writeErr: bool, failed: bool, after: nat)
    requires TraceInv(c, t, batches) && b + 1 == batches && |stages| < |group|
    requires GroupInv(c, group, |stages| + 1) && c.works[group[|stages|]].started
    requires GroupOpen(c, t, b, group, stages, writeErr)
    ensures TraceInv(SetError(c, group[|stages|], failed), t + [Ran(b, group[|stages|], failed, after)], batches)
  {
    NextInOrder(c, t, b, group, stages, writeErr);
    TraceInvGrows(c, t, Ran(b, group[|stages|], failed, after), batches);
  }

  lemma {:induction false} RunKeepsGroupOpen(c: Core, t: seq<Event>, batches: nat, b: nat, group: seq<nat>,
                                             stages: seq<Stage>, writeErr: bool, failed: bool, after: nat)
    requires TraceInv(c, t, batches) && b + 1 == batches && |stages| < |group|
    requires GroupInv(c, group, |stages| + 1) && c.works[group[|stages|]].started
    requires GroupOpen(c, t, b, group, stages, writeErr)
    ensures GroupOpen(SetError(c, group[|stages|], failed), t + [Ran(b, group[|stages|], failed, after)], b, group,
                      stages + [Stage(true, after)], writeErr || failed)
  {
    var e := Ran(b, group[|stages|], failed, after);
    GroupDisjoint(c, group);
    NextInOrder(c, t, b, group, stages, writeErr);
    RanBeforeGrows(t, e, group[|stages| + 1..]);
    RanBeforeGrows(t, e, c.pending);
  }

  /** A started work whose caller has given up is not run; its error is the caller's. */
  lemma {:induction false} GiveUpRecorded(c: Core, t: seq<Event>, batches: nat, b: nat, group: seq<nat>,
                                          stages: seq<Stage>, writeErr: bool)
    requires Within(group, |c.works|) && |stages| < |group|
    requires forall j, k :: 0 <= j < k < |group| ==> group[j] < group[k]
    requires TraceInv(c, t, batches) && GroupOpen(c, t, b, group, stages, writeErr)
    ensures TraceInv(SetError(c, group[|stages|], true), t, batches)
    ensures GroupOpen(SetError(c, group[|stages|], true), t, b, group, stages + [Stage(false, 0)], writeErr)
  {
    RanBeforeRest(t, group, |stages|);
  }

  lemma {:induction false} RunHistory(v: View, o: Oracle)
    requires ViewInv(v) && v.worker.Running?
    ensures ViewInv(RunOne(v, o))
  {
    RunOneKeeps(v, o);
    var Running(b, group, stages, writeErr) := v.worker;
    if v.core.works[group[|stages|]].cancelled {
      GroupDisjoint(v.core, group);
      GiveUpRecorded(v.core, v.trace, v.batches, b, group, stages, writeErr);
    } else {
      RunRecorded(v.core, v.trace, v.batches, b, group, stages, writeErr, o.runFailed, o.after);
      RunKeepsGroupOpen(v.core, v.trace, v.batches, b, group, stages, writeErr, o.runFailed, o.after);
    }
  }

  lemma {:induction false} EffectRecorded(c: Core, t: seq<Event>, b: nat, group: seq<nat>, stages: seq<Stage>,
                                          flushErr: bool, i: nat, j: nat)
    requires Within(group, |c.works|) && |stages| == |group|
    requires forall j, k :: 0 <= j < k < |group| ==> group[j] < group[k]
    requires SettlingInv(c, t, b, group, stages, flushErr, i, true, j)
    requires i < |group| && !c.works[group[i]].failed && stages[i].Stage? && j < stages[i].after
    ensures Justified(t, After(b, group[i], j))
    ensures SettlingInv(c, t + [After(b, group[i], j)], b, group, stages, flushErr, i, true, j + 1)
  {
    forall k | 0 <= k < |group| && k != i
      ensures Settled(c, t + [After(b, group[i], j)], b, group[k], stages[k], flushErr, k < i,
                      if k < i then EffectsOf(stages[k]) else 0)
    {
      assert Settled(c, t, b, group[k], stages[k], flushErr, k < i, if k < i then EffectsOf(stages[k]) else 0);
      assert group[k] != group[i];
    }
  }

  predicate EffectNext(v: View)
  {
    && v.worker.Settling? && v.worker.i < |v.worker.group| == |v.worker.stages| && v.worker.joined
    && Within(v.worker.group, |v.core.works|) && !v.core.works[v.worker.group[v.worker.i]].failed
    && v.worker.stages[v.worker.i].Stage? && v.worker.j < v.worker.stages[v.worker.i].after
  }

  lemma {:induction false} EffectKeepsWorker(v: View)
    requires ViewInv(v) && EffectNext(v)
    ensures var w, e := v.worker, After(v.worker.batch, v.worker.group[v.worker.i], v.worker.j);
      && WorkerInv(v.core, w.(j := w.j + 1))
      && WorkerTrace(v.core, w.(j := w.j + 1), v.trace + [e], v.batches)
  {
    var Settling(b, group, stages, flushErr, i, joined, j) := v.worker;
    GroupDisjoint(v.core, group);
    EffectRecorded(v.core, v.trace, b, group, stages, flushErr, i, j);
    RanBeforeGrows(v.trace, After(b, group[i], j), v.core.pending);
  }

  lemma {:induction false} EffectKeepsTrace(v: View)
    requires ViewInv(v) && EffectNext(v)
    ensures TraceInv(v.core, v.trace + [After(v.worker.batch, v.worker.group[v.worker.i], v.worker.j)], v.batches)
  {
    var Settling(b, group, stages, flushErr, i, joined, j) := v.worker;
    GroupDisjoint(v.core, group);
    EffectRecorded(v.core, v.trace, b, group, stages, flushErr, i, j);
    TraceInvGrows(v.core, v.trace, After(b, group[i], j), v.batches);
  }

  /** The view in which the next effect has run. */
  function AfterEffect(v: View): View
    requires EffectNext(v)
  {
    View(v.core, v.worker.(j := v.worker.j + 1),
         v.trace + [After(v.worker.batch, v.worker.group[v.worker.i], v.worker.j)], v.batches)
  }

  lemma {:induction false} AfterEffectInv(v: View)
    requires ViewInv(v) && EffectNext(v)
    ensures ViewInv(AfterEffect(v))
  {
    EffectKeepsWorker(v);
    EffectKeepsTrace(v);
  }

  lemma {:induction false} EffectHistory(v: View)
    requires ViewInv(v) && EffectNext(v)
    ensures ViewInv(Settle(v))
  {
    AfterEffectInv(v);
    assert Settle(v) == AfterEffect(v);
  }

  /** Joining the flush error into the error of the work whose turn it is. */
  lemma {:induction false} JoinRecorded(c: Core, t: seq<Event>, batches: nat, b: nat, group: seq<nat>,
                                        stages: seq<Stage>,
                                        flushErr: bool, i: nat, j: nat)
    requires Within(group, |c.works|) && |stages| == |group| && i < |group| && c.works[group[i]].started
    requires !c.works[group[i]].finished && forall j, k :: 0 <= j < k < |group| ==> group[j] < group[k]
    requires TraceInv(c, t, batches) && SettlingInv(c, t, b, group, stages, flushErr, i, false, j)
    ensures var c' := SetError(c, group[i], c.works[group[i]].failed || flushErr);
      TraceInv(c', t, batches) && SettlingInv(c', t, b, group, stages, flushErr, i, true, 0)
  {
    var c' := SetError(c, group[i], c.works[group[i]].failed || flushErr);
    forall k | 0 <= k < |group|
      ensures Settled(c', t, b, group[k], stages[k], flushErr, k <= i, if k < i then EffectsOf(stages[k]) else 0)
    {
      assert Settled(c, t, b, group[k], stages[k], flushErr, k < i, if k < i then EffectsOf(stages[k]) else 0);
    }
  }

  lemma {:induction false} JoinHistory(v: View)
    requires ViewInv(v) && v.worker.Settling? && v.worker.i < |v.worker.group| && !v.worker.joined
    ensures ViewInv(Settle(v))
  {
    SettleKeeps(v);
    var Settling(b, group, stages, flushErr, i, joined, j) := v.worker;
    GroupDisjoint(v.core, group);
    if stages[i].Stage? {
      JoinRecorded(v.core, v.trace, v.batches, b, group, stages, flushErr, i, j);
    }
  }

  lemma {:induction false} AdvanceHistory(v: View)
    requires ViewInv(v) && v.worker.Settling? && v.worker.i < |v.worker.group| && v.worker.joined
    requires v.core.works[v.worker.group[v.worker.i]].failed || v.worker.j >= v.worker.stages[v.worker.i].after
    ensures ViewInv(Settle(v))
  {
    SettleKeeps(v);
  }

  lemma {:induction false} SettledHistory(v: View)
    requires ViewInv(v) && v.worker.Settling? && v.worker.i == |v.worker.group|
    ensures ViewInv(Settle(v))
  {
    SettleKeeps(v);
    var Settling(b, group, stages, flushErr, i, joined, j) := v.worker;
    forall k | 0 <= k < |group| && v.core.works[group[k]].started && !v.core.works[group[k]].failed
      ensures Acked(v.trace, group[k])
    {
      assert Settled(v.core, v.trace, b, group[k], stages[k], flushErr, true, EffectsOf(stages[k]));
      assert AckedIn(v.trace, group[k], b, stages[k].after);
    }
  }

  lemma {:induction false} ReleaseHistory(v: View)
    requires ViewInv(v) && v.worker.Releasing?
    ensures ViewInv(v.(core := ReleaseGroup(v.core, v.worker.group), worker := AtTop))
  {
    ReleasingKeeps(v.core, v.worker.group);
    ReleaseGroupFinishes(v.core, v.worker.group);
  }
}
