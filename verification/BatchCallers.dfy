/** What callers of the ingest batcher get by giving up, over whole runs. */
module BatchCallers {
  import opened BatchCore
  import opened BatchErrors
  import opened BatchRuns
  import opened BatchTheorems
  import opened BatchTrace

  // ------------------------------------------------------------ one step

  lemma {:induction false} WorkerKeepsContexts(v: View, o: Oracle)
    requires Usable(v) && !(v.worker.AtTop? && v.core.pending == [])
    ensures var c := WorkerNext(v, o).core;
      && |c.works| == |v.core.works|
      && forall x :: 0 <= x < |c.works| ==> c.works[x].cancelled == v.core.works[x].cancelled
  {
    if v.worker.Releasing? {
      ReleasedCancelled(v.core, v.worker.group);
    }
  }

  /** A context is done from its cancellation on, and by nothing else. */
  lemma {:induction false} StepCancels(s: State, step: Step, x: nat)
    requires Enabled(s, step) && x < |Next(s, step).core.works|
    ensures |s.core.works| <= |Next(s, step).core.works|
    ensures Next(s, step).core.works[x].cancelled <==>
      (x < |s.core.works| && s.core.works[x].cancelled) || step == CancelContext(x)
  {
    if step.Worker? && !(s.workers[step.k].AtTop? && s.core.pending == []) {
      WorkerKeepsContexts(View(s.core, s.workers[step.k], s.trace, s.batches), step.o);
    }
  }

  ghost predicate NewRunOf(t: seq<Event>, t': seq<Event>, x: nat)
  {
    exists b: nat, f: bool, a: nat :: Ran(b, x, f, a) in t' && Ran(b, x, f, a) !in t
  }

  /** Only works whose context is not done are run. */
  lemma {:induction false} WorkerRunsWaiting(v: View, o: Oracle, x: nat)
    requires Usable(v) && !(v.worker.AtTop? && v.core.pending == [])
    requires x < |v.core.works| && v.core.works[x].cancelled
    ensures !NewRunOf(v.trace, WorkerNext(v, o).trace, x)
  {
  }

  lemma {:induction false} StepRunsWaiting(s: State, step: Step, x: nat)
    requires Enabled(s, step) && x < |s.core.works| && s.core.works[x].cancelled
    ensures !NewRunOf(s.trace, Next(s, step).trace, x)
  {
    if step.Worker? && !(s.workers[step.k].AtTop? && s.core.pending == []) {
      WorkerRunsWaiting(View(s.core, s.workers[step.k], s.trace, s.batches), step.o, x);
    }
  }

  lemma {:induction false} StepKeepsWorks(s: State, step: Step)
    requires Enabled(s, step)
    ensures |s.core.works| <= |Next(s, step).core.works|
  {
    if step.Worker? && !(s.workers[step.k].AtTop? && s.core.pending == []) {
      WorkerKeepsContexts(View(s.core, s.workers[step.k], s.trace, s.batches), step.o);
    }
  }

  lemma {:induction false} ReleaseKeepsFinished(c: Core, group: seq<nat>, x: nat)
    requires Within(group, |c.works|) && x < |c.works| && c.works[x].finished
    ensures var w := ReleaseGroup(c, group).works[x]; w.finished && w.started == c.works[x].started
    decreases |group|
  {
    if group != [] {
      ReleaseKeepsFinished(if c.works[group[0]].finished then c else Release(c, group[0]), group[1..], x);
    }
  }

  lemma {:induction false} StepKeepsFinished(s: State, step: Step, x: nat)
    requires Enabled(s, step) && x < |s.core.works| && s.core.works[x].finished
    ensures x < |Next(s, step).core.works|
    ensures var w := Next(s, step).core.works[x]; w.finished && w.started == s.core.works[x].started
  {
    StepKeepsWorks(s, step);
    if step.Worker? && s.workers[step.k].Releasing? {
      ReleaseKeepsFinished(s.core, s.workers[step.k].group, x);
    }
  }

  // ------------------------------------------------------------ whole runs

  /** In every reachable state the contexts that are done are those that callers have
      cancelled. */
  lemma {:induction false} CancelledExactlyWhen(states: seq<State>, steps: seq<Step>, n: nat, x: nat)
    requires IsRun(states, steps) && n <= |steps| && x < |states[n].core.works|
    ensures states[n].core.works[x].cancelled <==> CancelContext(x) in steps[..n]
  {
    if n > 0 {
      assert steps[..n] == steps[..n - 1] + [steps[n - 1]];
      StepCancels(states[n - 1], steps[n - 1], x);
      if x < |states[n - 1].core.works| {
        CancelledExactlyWhen(states, steps, n - 1, x);
      } else {
        NotYetCancelled(states, steps, n - 1, x);
      }
    }
  }

  lemma {:induction false} NotYetCancelled(states: seq<State>, steps: seq<Step>, n: nat, x: nat)
    requires IsRun(states, steps) && n <= |steps| && x >= |states[n].core.works|
    ensures CancelContext(x) !in steps[..n]
  {
    if n > 0 {
      assert steps[..n] == steps[..n - 1] + [steps[n - 1]];
      StepKeepsWorks(states[n - 1], steps[n - 1]);
      NotYetCancelled(states, steps, n - 1, x);
    }
  }

  /** In every run, once its context is done a work is not run any more, whatever group has
      collected it. */
  lemma {:induction false} NoRunAfterCancellation(states: seq<State>, steps: seq<Step>, k: nat, n: nat, x: nat)
    requires IsRun(states, steps) && k <= n <= |steps|
    requires x < |states[k].core.works| && states[k].core.works[x].cancelled
    ensures x < |states[n].core.works| && states[n].core.works[x].cancelled
    ensures !NewRunOf(states[k].trace, states[n].trace, x)
  {
    if k < n {
      NoRunAfterCancellation(states, steps, k, n - 1, x);
      StepKeepsWorks(states[n - 1], steps[n - 1]);
      StepCancels(states[n - 1], steps[n - 1], x);
      StepRunsWaiting(states[n - 1], steps[n - 1], x);
    }
  }

  lemma {:induction false} FinishedStays(states: seq<State>, steps: seq<Step>, k: nat, n: nat, x: nat)
    requires IsRun(states, steps) && k <= n <= |steps|
    requires x < |states[k].core.works| && states[k].core.works[x].finished
    ensures x < |states[n].core.works|
    ensures states[n].core.works[x].finished && states[n].core.works[x].started == states[k].core.works[x].started
  {
    if k < n {
      FinishedStays(states, steps, k, n - 1, x);
      StepKeepsFinished(states[n - 1], steps[n - 1], x);
    }
  }

  /** In every run, a caller that gives up waiting for a work that is neither started nor
      finished gets its own error at once, and the work is never run; if it is either,
      giving up changes nothing. */
  lemma {:induction false} GivenUpNeverRuns(states: seq<State>, steps: seq<Step>, k: nat, n: nat, x: nat)
    requires IsRun(states, steps) && k < n <= |steps| && steps[k] == CancelWait(x)
    ensures x < |states[k].core.works|
    ensures var w := states[k].core.works[x];
      if w.started || w.finished then states[k + 1] == states[k]
      else
        && x < |states[n].core.works| && states[n].core.works[x].finished && states[n].core.works[x].failed
        && NeverRan(states[n].trace, x)
  {
    var w := states[k].core.works[x];
    if !w.started && !w.finished {
      FinishedStays(states, steps, k + 1, n, x);
      CancelledNeverRuns(states, steps, n, x);
    }
  }
}
