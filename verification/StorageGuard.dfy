/** The storage guard: a two-latch hysteresis controller that decides whether ingestion
    is admitted. */
module StorageGuards {
  const WAL_CHECKPOINT_BYTES: int := 0x80_0000
  const PROACTIVE_COOLDOWN: int := 5_000_000_000

  /** The policy's atomics, with `full` as the store last had it set. */
  datatype Guard = Guard(maxBytes: int, autoPrune: bool, nextPruneAfter: int,
                         pruning: bool, recovering: bool, full: bool)

  /** How a prune ended: `Soft` is the safety stop short of its target. */
  datatype PruneEnd = Done | Soft | Hard

  /** What one pass finds: the file size and the clock before and after pruning. */
  datatype Found = Found(size: int, now: int, after: int, end: PruneEnd, later: int)

  datatype Checkpoint = Written | TimedOut | Failed

  datatype Step =
    | Update(maxBytes: int, autoPrune: bool)
    | Check(f: Found)
    | Wal(walBytes: int, size: int, backingOff: bool, checkpoint: Checkpoint, after: int)

  /** `calls` are the values passed to SetFull during the step, in order. */
  datatype Result = Result(guard: Guard, calls: seq<bool>, pruned: bool)

  function HighWater(maxBytes: int): int
  {
    var h := maxBytes * 80 / 100;
    if h <= 0 then maxBytes else h
  }

  function Target(maxBytes: int): int
  {
    var t := maxBytes * 70 / 100;
    if t <= 0 || t >= HighWater(maxBytes) then HighWater(maxBytes) - 1 else t
  }

  lemma Thresholds(maxBytes: int)
    requires maxBytes > 0
    ensures 0 <= Target(maxBytes) < HighWater(maxBytes) <= maxBytes
    ensures maxBytes >= 2 ==> 100 * HighWater(maxBytes) <= 80 * maxBytes < 100 * (HighWater(maxBytes) + 1)
    ensures maxBytes >= 10 ==> 100 * Target(maxBytes) <= 70 * maxBytes < 100 * (Target(maxBytes) + 1)
  {
  }

  // ------------------------------------------------------------ the object

  class StorageGuard {
    var maxBytes: int
    var autoPrune: bool
    var nextPruneAfter: int
    var pruning: bool
    var recovering: bool
    var full: bool
    var calls: seq<bool>

    function View(): Guard
      reads this
    {
      Guard(maxBytes, autoPrune, nextPruneAfter, pruning, recovering, full)
    }

    method SetFull(value: bool)
      modifies `full, `calls
      ensures full == value && calls == old(calls) + [value]
    {
      full := value;
      calls := calls + [value];
    }

    method UpdatePolicy(newMaxBytes: int, newAutoPrune: bool)
      modifies this
      ensures View() == Next(old(View()), Update(newMaxBytes, newAutoPrune)).guard
      ensures calls == old(calls)
    {
      maxBytes, autoPrune := newMaxBytes, newAutoPrune;
      nextPruneAfter := 0;
      pruning, recovering := false, false;
    }

    method CheckStorage(f: Found) returns (pruned: bool)
      modifies this
      ensures var r := Next(old(View()), Check(f));
        View() == r.guard && calls == old(calls) + r.calls && pruned == r.pruned
    {
      pruned := false;
      if maxBytes <= 0 {
        SetFull(false);
        return;
      }
      if !autoPrune {
        SetFull(f.size >= maxBytes);
        return;
      }
      var highWater := maxBytes * 80 / 100;
      var target := maxBytes * 70 / 100;
      if highWater <= 0 {
        highWater := maxBytes;
      }
      if target <= 0 || target >= highWater {
        target := highWater - 1;
      }
      assert highWater == HighWater(maxBytes) && target == Target(maxBytes);
      if f.size <= target {
        pruning, recovering := false, false;
        SetFull(false);
        return;
      }
      if f.size >= highWater {
        pruning := true;
      }
      if !pruning {
        SetFull(false);
        return;
      }
      if f.size >= maxBytes {
        recovering := true;
      }
      if !recovering && f.now < nextPruneAfter {
        SetFull(false);
        return;
      }
      Reclaim(f, highWater, target);
      pruned := true;
    }

    /** One bounded prune and what it means for the latches. */
    method Reclaim(f: Found, highWater: int, target: int)
      requires highWater == HighWater(maxBytes) && target == Target(maxBytes)
      requires f.size > target && pruning
      modifies this
      ensures var p := Pruned(old(View()), f);
        && View() == p.(full := f.end.Hard? || p.recovering)
        && calls == old(calls) + [old(recovering), f.end.Hard? || p.recovering]
    {
      SetFull(recovering);
      if f.after >= maxBytes || (f.end.Hard? && f.after > target) {
        recovering := true;
      }
      if f.after <= target {
        pruning, recovering := false, false;
      }
      if f.end.Soft? && f.after < highWater {
        recovering := false;
      }
      if !recovering && f.after > target {
        nextPruneAfter := f.later + PROACTIVE_COOLDOWN;
      }
      SetFull(f.end.Hard? || recovering);
    }

    method CheckWal(walBytes: int, size: int, backingOff: bool, checkpoint: Checkpoint, after: int)
      returns (handled: bool)
      modifies `full, `calls
      ensures var r := Next(old(View()), Wal(walBytes, size, backingOff, checkpoint, after));
        View() == r.guard && calls == old(calls) + r.calls
      ensures handled <==> WalHandles(old(View()), walBytes, size, backingOff)
    {
      if walBytes < WAL_CHECKPOINT_BYTES {
        return false;
      }
      if maxBytes > 0 && autoPrune && !backingOff
         && (size >= maxBytes * 80 / 100 || (pruning && size > maxBytes * 70 / 100)) {
        return false;
      }
      SetFull(recovering || (maxBytes > 0 && size >= maxBytes));
      SetFull(checkpoint.Failed? || recovering || (maxBytes > 0 && after >= maxBytes));
      return true;
    }
  }

  // ------------------------------------------------------------ specification

  predicate WalHandles(g: Guard, walBytes: int, size: int, backingOff: bool)
  {
    && walBytes >= WAL_CHECKPOINT_BYTES
    && (g.maxBytes > 0 && g.autoPrune && !backingOff ==>
          && size < g.maxBytes * 80 / 100
          && (g.pruning ==> size <= g.maxBytes * 70 / 100))
  }

  /** The guard once a pass has measured `size`: the latches before any pruning. */
  function Measured(g: Guard, size: int): Guard
  {
    if size <= Target(g.maxBytes) then g.(pruning := false, recovering := false)
    else
      var pruning := g.pruning || size >= HighWater(g.maxBytes);
      g.(pruning := pruning, recovering := g.recovering || (pruning && size >= g.maxBytes))
  }

  /** Whether the pass goes on to prune. */
  predicate Prunes(g: Guard, f: Found)
  {
    var m := Measured(g, f.size);
    && g.maxBytes > 0 && g.autoPrune
    && f.size > Target(g.maxBytes) && m.pruning
    && (m.recovering || f.now >= g.nextPruneAfter)
  }

  /** The latches after a prune. */
  function Pruned(m: Guard, f: Found): Guard
  {
    var target := Target(m.maxBytes);
    if f.after <= target then m.(pruning := false, recovering := false)
    else
      var recovering := !(f.end.Soft? && f.after < HighWater(m.maxBytes))
                        && (m.recovering || f.after >= m.maxBytes || f.end.Hard?);
      m.(recovering := recovering,
         nextPruneAfter := if recovering then m.nextPruneAfter else f.later + PROACTIVE_COOLDOWN)
  }

  function Next(g: Guard, step: Step): Result
  {
    match step
    case Update(maxBytes, autoPrune) => Result(Guard(maxBytes, autoPrune, 0, false, false, g.full), [], false)
    case Check(f) =>
      if g.maxBytes <= 0 then Result(g.(full := false), [false], false)
      else if !g.autoPrune then Result(g.(full := f.size >= g.maxBytes), [f.size >= g.maxBytes], false)
      else
        var m := Measured(g, f.size);
        if !Prunes(g, f) then Result(m.(full := false), [false], false)
        else
          var p := Pruned(m, f);
          var blocked := f.end.Hard? || p.recovering;
          Result(p.(full := blocked), [m.recovering, blocked], true)
    case Wal(walBytes, size, backingOff, checkpoint, after) =>
      if !WalHandles(g, walBytes, size, backingOff) then Result(g, [], false)
      else
        var first := g.recovering || (g.maxBytes > 0 && size >= g.maxBytes);
        var second := checkpoint.Failed? || g.recovering || (g.maxBytes > 0 && after >= g.maxBytes);
        Result(g.(full := second), [first, second], false)
  }

  // ------------------------------------------------------------ guarantees

  /** Recovery is a phase of pruning, happens only under auto-pruning with a cap, and
      keeps the store full. */
  ghost predicate Inv(g: Guard)
  {
    g.recovering ==> g.pruning && g.autoPrune && g.maxBytes > 0 && g.full
  }

  lemma StepKeepsInv(g: Guard, step: Step)
    requires Inv(g)
    ensures Inv(Next(g, step).guard)
  {
    if g.maxBytes > 0 {
      Thresholds(g.maxBytes);
    }
  }

  /** A guard pass leaves the store full exactly when it should: without a cap never,
      in preserve mode at the cap, and otherwise when recovering or when this pass's
      prune failed hard. */
  lemma FullAfterCheck(g: Guard, f: Found)
    requires Inv(g)
    ensures var r := Next(g, Check(f));
      r.guard.full <==>
        && g.maxBytes > 0
        && if g.autoPrune then r.guard.recovering || (r.pruned && f.end.Hard?) else f.size >= g.maxBytes
  {
    if g.maxBytes > 0 {
      Thresholds(g.maxBytes);
    }
  }

  /** What a pass must find for recovery to end ... */
  ghost predicate Restored(g: Guard, step: Step)
  {
    match step
    case Update(_, _) => true
    case Check(f) =>
      || f.size <= Target(g.maxBytes)
      || f.after <= Target(g.maxBytes)
      || (f.end.Soft? && f.after < HighWater(g.maxBytes))
    case Wal(_, _, _, _, _) => false
  }

  /** ... and for it to begin. */
  ghost predicate Overrun(g: Guard, step: Step)
  {
    && step.Check?
    && (|| step.f.size >= g.maxBytes || step.f.after >= g.maxBytes
        || (step.f.end.Hard? && step.f.after > Target(g.maxBytes)))
  }

  /** The recovery latch is set only by an overrun and cleared exactly by a restoring
      pass; and as long as it stays set no call reopens admission, not even in passing. */
  lemma RecoveryLatch(g: Guard, step: Step)
    requires Inv(g)
    ensures var r := Next(g, step);
      && (g.recovering ==> (r.guard.recovering <==> !Restored(g, step)))
      && (!g.recovering && r.guard.recovering ==> Overrun(g, step))
      && (g.recovering && r.guard.recovering ==> forall k :: 0 <= k < |r.calls| ==> r.calls[k])
  {
    if g.maxBytes > 0 {
      Thresholds(g.maxBytes);
    }
  }

  /** Exactly a capped guard under auto-pruning prunes, once it is above its target and
      has reached high water, and outside recovery not before its cooldown has passed. */
  lemma PrunesOnlyWhenDue(g: Guard, step: Step)
    ensures Next(g, step).pruned <==>
      && step.Check? && g.autoPrune && g.maxBytes > 0 && step.f.size > Target(g.maxBytes)
      && (g.pruning || step.f.size >= HighWater(g.maxBytes))
      && (g.recovering || step.f.size >= g.maxBytes || step.f.now >= g.nextPruneAfter)
  {
  }

  /** After a guard pass the store is recovering if and only if the pass pruned, above the
      target and not to a safety stop below high water, and was recovering, found the cap
      reached before or after pruning, or failed hard. Admission is set once, or before
      and after pruning. */
  lemma RecoveringExactlyWhen(g: Guard, f: Found)
    requires Inv(g)
    ensures var r := Next(g, Check(f));
      && (r.guard.recovering <==>
            && r.pruned && f.after > Target(g.maxBytes) && !(f.end.Soft? && f.after < HighWater(g.maxBytes))
            && (g.recovering || f.size >= g.maxBytes || f.after >= g.maxBytes || f.end.Hard?))
      && r.calls ==
           if r.pruned then [g.recovering || f.size >= g.maxBytes, r.guard.full] else [r.guard.full]
  {
    if g.maxBytes > 0 {
      Thresholds(g.maxBytes);
    }
  }

  /** The cooldown starts over with every prune that leaves the store above its target
      without recovering; new settings end it, and nothing else changes it. */
  lemma CooldownSetExactlyWhen(g: Guard, step: Step)
    ensures var r := Next(g, step);
      r.guard.nextPruneAfter ==
        if step.Update? then 0
        else if r.pruned && step.f.after > Target(g.maxBytes) && !r.guard.recovering
        then step.f.later + PROACTIVE_COOLDOWN
        else g.nextPruneAfter
  {
  }

  /** A large WAL is handled unless eviction goes first: the store is at high water, or
      being pruned and above the target mark. Before the checkpoint admission is closed
      exactly if the store is recovering or at its cap, and after it also if it failed. */
  lemma WalExactly(g: Guard, walBytes: int, size: int, backingOff: bool, checkpoint: Checkpoint, after: int)
    ensures var r := Next(g, Wal(walBytes, size, backingOff, checkpoint, after));
      var capped := g.maxBytes > 0;
      var evicts := capped && g.autoPrune && !backingOff
                    && (size >= g.maxBytes * 80 / 100 || (g.pruning && size > g.maxBytes * 70 / 100));
      if walBytes < WAL_CHECKPOINT_BYTES || evicts then r == Result(g, [], false)
      else
        && |r.calls| == 2 && !r.pruned && r.guard == g.(full := r.calls[1])
        && (r.calls[0] <==> g.recovering || (capped && size >= g.maxBytes))
        && (r.calls[1] <==> checkpoint.Failed? || g.recovering || (capped && after >= g.maxBytes))
  {
  }

  // ------------------------------------------------------------ whole runs

  function Run(g: Guard, steps: seq<Step>): Guard
  {
    if steps == [] then g else Next(Run(g, steps[..|steps| - 1]), steps[|steps| - 1]).guard
  }

  const INITIAL := Guard(0, false, 0, false, false, false)

  lemma {:induction false} RunKeepsInv(steps: seq<Step>)
    ensures Inv(Run(INITIAL, steps))
  {
    if steps != [] {
      RunKeepsInv(steps[..|steps| - 1]);
      StepKeepsInv(Run(INITIAL, steps[..|steps| - 1]), steps[|steps| - 1]);
    }
  }

  lemma RunStep(steps: seq<Step>, k: nat)
    requires k < |steps|
    ensures Run(INITIAL, steps[..k + 1]) == Next(Run(INITIAL, steps[..k]), steps[k]).guard
  {
    assert steps[..k + 1][..k] == steps[..k];
  }

  lemma RecoveryGoesOn(g: Guard, step: Step)
    requires Inv(g) && g.recovering && !Restored(g, step)
    ensures Next(g, step).guard.recovering
  {
    RecoveryLatch(g, step);
  }

  /** Hysteresis over whole runs: once recovering, the store stays full and recovering
      through every pass until one of them restores headroom. */
  lemma {:induction false} RecoveryHolds(steps: seq<Step>, a: nat, b: nat)
    requires a <= b <= |steps| && Run(INITIAL, steps[..a]).recovering
    requires forall k :: a <= k < b ==> !Restored(Run(INITIAL, steps[..k]), steps[k])
    ensures Run(INITIAL, steps[..b]).recovering && Run(INITIAL, steps[..b]).full
  {
    RunKeepsInv(steps[..b]);
    if a < b {
      RecoveryHolds(steps, a, b - 1);
      RunKeepsInv(steps[..b - 1]);
      RunStep(steps, b - 1);
      RecoveryGoesOn(Run(INITIAL, steps[..b - 1]), steps[b - 1]);
    }
  }

  /** Step `k` does not find the target, neither by its measurement nor by pruning. */
  ghost predicate AboveTarget(steps: seq<Step>, maxBytes: int, k: nat)
    requires k < |steps|
  {
    steps[k].Check? ==>
      && steps[k].f.size > Target(maxBytes)
      && (Next(Run(INITIAL, steps[..k]), steps[k]).pruned ==> steps[k].f.after > Target(maxBytes))
  }

  /** Pass `j` measured high water, and no step since then has found the target or
      changed the settings. */
  ghost predicate HighSince(steps: seq<Step>, maxBytes: int, j: nat)
  {
    && j < |steps| && steps[j].Check? && steps[j].f.size >= HighWater(maxBytes)
    && forall k :: j <= k < |steps| ==> !steps[k].Update? && AboveTarget(steps, maxBytes, k)
  }

  ghost predicate StaysHigh(steps: seq<Step>, maxBytes: int)
  {
    exists j: nat :: HighSince(steps, maxBytes, j)
  }

  /** What one step does to the latch of a guard that prunes at all. */
  lemma LatchStep(g: Guard, step: Step)
    requires g.autoPrune && g.maxBytes > 0 && !step.Update?
    ensures var r := Next(g, step);
      && r.guard.autoPrune && r.guard.maxBytes == g.maxBytes
      && (r.guard.pruning <==>
            && (step.Check? ==> step.f.size > Target(g.maxBytes) && (r.pruned ==> step.f.after > Target(g.maxBytes)))
            && (g.pruning || (step.Check? && step.f.size >= HighWater(g.maxBytes))))
  {
  }

  /** A guard that does not prune never latches. */
  lemma LatchIdle(g: Guard, step: Step)
    requires g.pruning ==> g.autoPrune && g.maxBytes > 0
    ensures step.Update? || !g.autoPrune || g.maxBytes <= 0 ==> !Next(g, step).guard.pruning
    ensures !step.Update? ==> Next(g, step).guard.autoPrune == g.autoPrune && Next(g, step).guard.maxBytes == g.maxBytes
  {
  }

  lemma {:induction false} AbovePrefix(steps: seq<Step>, maxBytes: int, n: nat, k: nat)
    requires k < n <= |steps|
    ensures AboveTarget(steps[..n], maxBytes, k) <==> AboveTarget(steps, maxBytes, k)
  {
    assert steps[..n][..k] == steps[..k];
  }

  lemma {:induction false} HighSnoc(steps: seq<Step>, maxBytes: int, j: nat)
    requires |steps| > 0 && j < |steps| - 1
    ensures var n := |steps| - 1;
      HighSince(steps, maxBytes, j) <==>
        HighSince(steps[..n], maxBytes, j) && !steps[n].Update? && AboveTarget(steps, maxBytes, n)
  {
    var n := |steps| - 1;
    if HighSince(steps, maxBytes, j) {
      forall k | j <= k < n
        ensures !steps[..n][k].Update? && AboveTarget(steps[..n], maxBytes, k)
      {
        AbovePrefix(steps, maxBytes, n, k);
      }
    }
    if HighSince(steps[..n], maxBytes, j) && !steps[n].Update? && AboveTarget(steps, maxBytes, n) {
      forall k | j <= k < |steps|
        ensures !steps[k].Update? && AboveTarget(steps, maxBytes, k)
      {
        if k < n {
          AbovePrefix(steps, maxBytes, n, k);
          assert steps[..n][k] == steps[k];
        }
      }
    }
  }

  /** The pruning latch is hysteresis too. In every run it is set if and only if there is
      a cap and auto-pruning, some pass has measured high water, and since then no step
      has found the target or changed the settings. */
  lemma {:induction false} PruningExactlyWhen(steps: seq<Step>)
    ensures var g := Run(INITIAL, steps);
      g.pruning <==> g.autoPrune && g.maxBytes > 0 && StaysHigh(steps, g.maxBytes)
  {
    if steps != [] {
      var n := |steps| - 1;
      var was, g := Run(INITIAL, steps[..n]), Run(INITIAL, steps);
      PruningExactlyWhen(steps[..n]);
      LatchIdle(was, steps[n]);
      if !steps[n].Update? && was.autoPrune && was.maxBytes > 0 {
        LatchStep(was, steps[n]);
        if g.pruning {
          var j := LatestHigh(steps, g.maxBytes, was.pruning);
        } else {
          NoHigh(steps, g.maxBytes);
        }
      } else if StaysHigh(steps, g.maxBytes) {
        var j: nat :| HighSince(steps, g.maxBytes, j);
        assert !steps[n].Update?;
      }
    }
  }

  lemma {:induction false} LatestHigh(steps: seq<Step>, maxBytes: int, latched: bool) returns (j: nat)
    requires |steps| > 0 && !steps[|steps| - 1].Update? && AboveTarget(steps, maxBytes, |steps| - 1)
    requires latched ==> StaysHigh(steps[..|steps| - 1], maxBytes)
    requires !latched ==> steps[|steps| - 1].Check? && steps[|steps| - 1].f.size >= HighWater(maxBytes)
    ensures HighSince(steps, maxBytes, j)
  {
    if latched {
      j :| HighSince(steps[..|steps| - 1], maxBytes, j);
      HighSnoc(steps, maxBytes, j);
    } else {
      j := |steps| - 1;
    }
  }

  lemma {:induction false} NoHigh(steps: seq<Step>, maxBytes: int)
    requires |steps| > 0
    requires var n := |steps| - 1;
      AboveTarget(steps, maxBytes, n) ==>
        && !(steps[n].Check? && steps[n].f.size >= HighWater(maxBytes))
        && !StaysHigh(steps[..n], maxBytes)
    ensures !StaysHigh(steps, maxBytes)
  {
    forall j: nat
      ensures !HighSince(steps, maxBytes, j)
    {
      if j < |steps| - 1 {
        HighSnoc(steps, maxBytes, j);
      }
    }
  }

  /** In every run a pass prunes if and only if there is a cap and auto-pruning, it is
      above target, it measures high water or some pass has since which none has found
      the target, and it is at the cap, recovering, or past the cooldown. */
  lemma {:induction false} PrunesExactlyWhen(steps: seq<Step>, k: nat)
    requires k < |steps|
    ensures var g := Run(INITIAL, steps[..k]);
      Next(g, steps[k]).pruned <==>
        && steps[k].Check? && g.autoPrune && g.maxBytes > 0 && steps[k].f.size > Target(g.maxBytes)
        && (steps[k].f.size >= HighWater(g.maxBytes) || StaysHigh(steps[..k], g.maxBytes))
        && (g.recovering || steps[k].f.size >= g.maxBytes || steps[k].f.now >= g.nextPruneAfter)
  {
    PruningExactlyWhen(steps[..k]);
    PrunesOnlyWhenDue(Run(INITIAL, steps[..k]), steps[k]);
  }

  // ------------------------------------------------------------ the cooldown, over runs

  /** No settings change from `a` on, and the clock of the prunes does not go back. */
  ghost predicate Unchanged(steps: seq<Step>, a: nat, b: nat)
    requires a <= b <= |steps|
  {
    && (forall k :: a <= k < b ==> !steps[k].Update?)
    && (forall j, k :: a <= j < k < b && steps[j].Check? && steps[k].Check? ==> steps[j].f.later <= steps[k].f.later)
  }

  /** The pass prunes, and leaves the store above its target without recovering. */
  ghost predicate SetsCooldown(g: Guard, step: Step)
  {
    var r := Next(g, step);
    step.Check? && r.pruned && step.f.after > Target(g.maxBytes) && !r.guard.recovering
  }

  lemma CooldownStep(g: Guard, step: Step, t: int)
    requires !step.Update? && (step.Check? ==> step.f.later + PROACTIVE_COOLDOWN >= t)
    requires g.nextPruneAfter >= t || SetsCooldown(g, step)
    ensures Next(g, step).guard.nextPruneAfter >= t
  {
    CooldownSetExactlyWhen(g, step);
  }

  lemma {:induction false} CooldownStays(steps: seq<Step>, a: nat, b: nat)
    requires a < b <= |steps| && Unchanged(steps, a, b) && SetsCooldown(Run(INITIAL, steps[..a]), steps[a])
    ensures Run(INITIAL, steps[..b]).nextPruneAfter >= steps[a].f.later + PROACTIVE_COOLDOWN
  {
    if a < b - 1 {
      CooldownStays(steps, a, b - 1);
    }
    CooldownStep(Run(INITIAL, steps[..b - 1]), steps[b - 1], steps[a].f.later + PROACTIVE_COOLDOWN);
    RunStep(steps, b - 1);
  }

  /** Over every run a proactive prune, with the store neither recovering nor at its cap,
      comes at least the cooldown after every earlier prune that left the store above its
      target without recovering, while the settings stay. */
  lemma {:induction false} ProactivePrunesApart(steps: seq<Step>, a: nat, b: nat)
    requires a < b < |steps| && Unchanged(steps, a, b) && SetsCooldown(Run(INITIAL, steps[..a]), steps[a])
    requires var g := Run(INITIAL, steps[..b]);
      steps[b].Check? && Next(g, steps[b]).pruned && !g.recovering && steps[b].f.size < g.maxBytes
    ensures steps[b].f.now >= steps[a].f.later + PROACTIVE_COOLDOWN
  {
    CooldownStays(steps, a, b);
    PrunesOnlyWhenDue(Run(INITIAL, steps[..b]), steps[b]);
  }
}
