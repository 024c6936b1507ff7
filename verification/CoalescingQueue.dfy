/** The two coalescing work queues: the detectors' (two workers, no cap) and the pool
    metrics' (one worker, at most 256 pending, and a worker that takes a key without a
    name for the sign of an empty queue). */
module CoalescingQueues {
  import opened Wrappers

  /** `blank` tells the keys that the worker mistakes for none. */
  datatype Config<!K> = Config(maxWorkers: nat, capacity: Option<nat>, blank: K -> bool)
  {
    ghost predicate Valid()
    {
      maxWorkers > 0
    }
  }

  datatype DetectorKey = DetectorKey(traceId: string, sessionId: string)

  datatype PoolKey = PoolKey(session: string, service: string, pool: string, name: string, window: int)

  const DETECTORS := Config(2, None, (k: DetectorKey) => false)
  const POOL := Config(1, Some(256), (k: PoolKey) => k.name == "")

  datatype Queue<K(==)> = Queue(pending: set<K>, running: int)

  // ------------------------------------------------------------ locked sections

  predicate Full<K>(c: Config<K>, q: Queue<K>)
  {
    c.capacity.Some? && |q.pending| >= c.capacity.value
  }

  /** Admits a key and says whether to start a worker for it. */
  function Admit<K(==)>(c: Config<K>, q: Queue<K>, k: K): (Queue<K>, bool)
    requires !Full(c, q)
  {
    if q.running >= c.maxWorkers then (q.(pending := q.pending + {k}), false)
    else (Queue(q.pending + {k}, q.running + 1), true)
  }

  /** A worker takes `k`, and ends if that is blank. */
  function TakeKey<K(==)>(c: Config<K>, q: Queue<K>, k: K): (Queue<K>, bool)
  {
    if c.blank(k) then (Queue(q.pending - {k}, q.running - 1), false)
    else (q.(pending := q.pending - {k}), true)
  }

  class CoalescingQueue<K(==)> {
    const c: Config<K>
    var pending: set<K>
    var running: int

    function View(): Queue<K>
      reads this
    {
      Queue(pending, running)
    }

    predicate TakenAs(x: K, k: Option<K>)
    {
      k == if c.blank(x) then None else Some(x)
    }

    constructor (c: Config<K>)
      ensures this.c == c && View() == Queue({}, 0)
    {
      this.c := c;
      pending, running := {}, 0;
    }

    method Enqueue(k: K) returns (admitted: bool, spawn: bool)
      modifies this
      ensures admitted <==> !Full(c, old(View()))
      ensures if admitted then (View(), spawn) == Admit(c, old(View()), k) else View() == old(View()) && !spawn
    {
      if c.capacity.Some? && |pending| >= c.capacity.value {
        return false, false;
      }
      pending := pending + {k};
      if running >= c.maxWorkers {
        return true, false;
      }
      running := running + 1;
      return true, true;
    }

    /** One turn of a worker's loop under the lock; `None` ends the worker. */
    method Take() returns (k: Option<K>)
      modifies this
      ensures old(pending) == {} ==> k == None && View() == Queue({}, old(running) - 1)
      ensures old(pending) != {} ==>
        exists x :: x in old(pending) && TakenAs(x, k) && View() == TakeKey(c, old(View()), x).0
      ensures k.Some? ==>
        k.value in old(pending) && !c.blank(k.value) && View() == Queue(old(pending) - {k.value}, old(running))
      ensures k == None ==> running == old(running) - 1 && forall x :: x in old(pending) - pending ==> c.blank(x)
    {
      if pending == {} {
        running := running - 1;
        return None;
      }
      var x :| x in pending;
      pending := pending - {x};
      if c.blank(x) {
        running := running - 1;
        return None;
      }
      return Some(x);
    }
  }

  // ------------------------------------------------------------ the system

  datatype Phase<K> = AtTop | Busy(k: K)

  /** A key was admitted, or a run for it was started. */
  datatype Event<K> = Admitted(k: K) | Started(k: K)

  datatype State<K(==)> = State(q: Queue<K>, workers: seq<Phase<K>>, trace: seq<Event<K>>)

  datatype Step<K> = Enqueue(k: K) | Work(i: nat, choice: K)

  function Initial<K>(): State<K>
  {
    State(Queue({}, 0), [], [])
  }

  predicate Enabled<K>(s: State<K>, step: Step<K>)
  {
    match step
    case Enqueue(_) => true
    case Work(i, choice) =>
      i < |s.workers| && (s.workers[i].AtTop? && s.q.pending != {} ==> choice in s.q.pending)
  }

  /** A worker at the top of its loop takes some pending key (`choice`) or ends; a busy
      one finishes its run. */
  function Next<K>(c: Config<K>, s: State<K>, step: Step<K>): State<K>
    requires Enabled(s, step)
  {
    match step
    case Enqueue(k) =>
      if Full(c, s.q) then s
      else
        var (q, spawn) := Admit(c, s.q, k);
        State(q, if spawn then s.workers + [AtTop] else s.workers, s.trace + [Admitted(k)])
    case Work(i, choice) =>
      if s.workers[i].Busy? then s.(workers := s.workers[i := AtTop])
      else if s.q.pending == {}
      then State(s.q.(running := s.q.running - 1), s.workers[..i] + s.workers[i + 1..], s.trace)
      else
        var (q, run) := TakeKey(c, s.q, choice);
        if run then State(q, s.workers[i := Busy(choice)], s.trace + [Started(choice)])
        else State(q, s.workers[..i] + s.workers[i + 1..], s.trace)
  }

  ghost predicate IsRun<K(!new)>(c: Config<K>, states: seq<State<K>>, steps: seq<Step<K>>)
  {
    && |states| == |steps| + 1 && states[0] == Initial()
    && forall n :: 0 <= n < |steps| ==> Enabled(states[n], steps[n]) && states[n + 1] == Next(c, states[n], steps[n])
  }

  /** The latest event about `k` is an admission: it is owed a run. */
  predicate Owed<K(==)>(trace: seq<Event<K>>, k: K)
  {
    trace != [] &&
    if trace[|trace| - 1].k == k then trace[|trace| - 1].Admitted? else Owed(trace[..|trace| - 1], k)
  }

  lemma {:induction false} OwedSnoc<K>(trace: seq<Event<K>>, e: Event<K>, k: K)
    ensures Owed(trace + [e], k) <==> if e.k == k then e.Admitted? else Owed(trace, k)
  {
    assert (trace + [e])[..|trace|] == trace;
  }

  ghost predicate Inv<K(!new)>(c: Config<K>, s: State<K>)
  {
    && s.q.running == |s.workers| <= c.maxWorkers
    && (c.capacity.Some? ==> |s.q.pending| <= c.capacity.value)
    && (s.q.pending != {} ==> s.workers != [])
    && (forall k :: k in s.q.pending <==> Owed(s.trace, k))
  }

  /** No pending key is blank. */
  ghost predicate NoBlank<K(!new)>(c: Config<K>, s: State<K>)
  {
    forall k :: k in s.q.pending ==> !c.blank(k)
  }

  ghost predicate Stranded<K>(s: State<K>)
  {
    s.q.pending != {} && s.workers == []
  }

  lemma {:induction false} EnqueueKeeps<K(!new)>(c: Config<K>, s: State<K>, k: K)
    requires c.Valid() && Inv(c, s)
    ensures Inv(c, Next(c, s, Enqueue(k)))
  {
    if !Full(c, s.q) {
      forall x
        ensures x in s.q.pending + {k} <==> Owed(s.trace + [Admitted(k)], x)
      {
        OwedSnoc(s.trace, Admitted(k), x);
      }
    }
  }

  lemma {:induction false} WorkKeeps<K(!new)>(c: Config<K>, s: State<K>, i: nat, choice: K)
    requires c.Valid() && Inv(c, s) && NoBlank(c, s) && Enabled(s, Work(i, choice))
    ensures Inv(c, Next(c, s, Work(i, choice)))
  {
    if s.workers[i].AtTop? && s.q.pending != {} {
      forall x
        ensures x in s.q.pending - {choice} <==> Owed(s.trace + [Started(choice)], x)
      {
        OwedSnoc(s.trace, Started(choice), x);
      }
    }
  }

  ghost predicate StepNotBlank<K>(c: Config<K>, step: Step<K>)
  {
    step.Enqueue? ==> !c.blank(step.k)
  }

  lemma {:induction false} RunKeepsInv<K(!new)>(c: Config<K>, states: seq<State<K>>, steps: seq<Step<K>>, n: nat)
    requires c.Valid() && IsRun(c, states, steps) && n <= |steps|
    requires forall m :: 0 <= m < n ==> StepNotBlank(c, steps[m])
    ensures Inv(c, states[n]) && NoBlank(c, states[n])
  {
    if n > 0 {
      RunKeepsInv(c, states, steps, n - 1);
      match steps[n - 1]
      case Enqueue(k) => EnqueueKeeps(c, states[n - 1], k);
      case Work(i, choice) => WorkKeeps(c, states[n - 1], i, choice);
    }
  }

  /** At every unlocked moment: no more workers than allowed, no more keys than the cap,
      a live worker whenever anything is pending, and exactly the keys owed a run are
      pending. So when no worker is live, every key ever admitted has had a run that
      started after its latest admission. */
  lemma {:induction false} NothingStranded<K(!new)>(c: Config<K>, states: seq<State<K>>, steps: seq<Step<K>>, n: nat)
    requires c.Valid() && IsRun(c, states, steps) && n <= |steps|
    requires forall m :: 0 <= m < n ==> StepNotBlank(c, steps[m])
    ensures var s := states[n];
      && |s.workers| <= c.maxWorkers && !Stranded(s)
      && (c.capacity.Some? ==> |s.q.pending| <= c.capacity.value)
      && (forall k :: k in s.q.pending <==> Owed(s.trace, k))
      && (s.workers == [] ==> forall k :: !Owed(s.trace, k))
  {
    RunKeepsInv(c, states, steps, n);
  }

  /** A run is started only for a key that is owed one, so an admission causes at most
      one run, however often it was repeated meanwhile. */
  lemma {:induction false} RunsOnlyWhenOwed<K(!new)>(c: Config<K>, states: seq<State<K>>, steps: seq<Step<K>>, n: nat)
    requires c.Valid() && IsRun(c, states, steps) && n < |steps|
    requires forall m :: 0 <= m < |steps| ==> StepNotBlank(c, steps[m])
    requires |states[n + 1].trace| > |states[n].trace| && states[n + 1].trace[|states[n].trace|].Started?
    ensures Owed(states[n].trace, states[n + 1].trace[|states[n].trace|].k)
  {
    RunKeepsInv(c, states, steps, n);
  }

  // ------------------------------------------------------------ progress

  function Weight<K>(w: Phase<K>): nat
  {
    if w.AtTop? then 1 else 2
  }

  function Weights<K>(ws: seq<Phase<K>>): nat
  {
    if ws == [] then 0 else Weights(ws[..|ws| - 1]) + Weight(ws[|ws| - 1])
  }

  /** The turns that are left: two for each pending key, those to finish the runs under way
      and one to end each worker. */
  ghost function Left<K>(s: State<K>): nat
  {
    2 * |s.q.pending| + Weights(s.workers)
  }

  lemma {:induction false} WeightsAppend<K>(a: seq<Phase<K>>, b: seq<Phase<K>>)
    ensures Weights(a + b) == Weights(a) + Weights(b)
  {
    if b == [] {
      assert a + b == a;
    } else {
      WeightsAppend(a, b[..|b| - 1]);
      assert (a + b)[..|a + b| - 1] == a + b[..|b| - 1];
    }
  }

  lemma {:induction false} WeightsAt<K>(ws: seq<Phase<K>>, i: nat, w: Phase<K>)
    requires i < |ws|
    ensures Weights(ws) == Weights(ws[..i] + ws[i + 1..]) + Weight(ws[i])
    ensures Weights(ws[i := w]) == Weights(ws[..i] + ws[i + 1..]) + Weight(w)
  {
    var a, b := ws[..i], ws[i + 1..];
    assert ws == a + ([ws[i]] + b) && ws[i := w] == a + ([w] + b);
    WeightsAppend(a, b);
    WeightsAppend(a, [ws[i]] + b);
    WeightsAppend(a, [w] + b);
    WeightsAppend([ws[i]], b);
    WeightsAppend([w], b);
  }

  /** Every turn of a worker leaves fewer, and an admission adds at most three. */
  lemma {:induction false} StepLeaves<K>(c: Config<K>, s: State<K>, step: Step<K>)
    requires Enabled(s, step)
    ensures Left(Next(c, s, step)) <= if step.Work? then Left(s) - 1 else Left(s) + 3
  {
    match step
    case Enqueue(k) =>
      WeightsAppend(s.workers, [AtTop]);
      assert |s.q.pending + {k}| <= |s.q.pending| + 1;
    case Work(i, choice) =>
      WeightsAt(s.workers, i, AtTop);
      WeightsAt(s.workers, i, Busy(choice));
      assert choice in s.q.pending ==> |s.q.pending - {choice}| == |s.q.pending| - 1;
  }

  function Turns<K>(steps: seq<Step<K>>, m: nat, n: nat): nat
    requires m <= n <= |steps|
  {
    if m == n then 0 else Turns(steps, m, n - 1) + if steps[n - 1].Work? then 1 else 0
  }

  /** In every stretch of a run, whatever the keys, the workers take at most the turns that
      were left, and three more for each call of Enqueue. */
  lemma {:induction false} DrainBound<K(!new)>(c: Config<K>, states: seq<State<K>>, steps: seq<Step<K>>, m: nat, n: nat)
    requires IsRun(c, states, steps) && m <= n <= |steps|
    ensures Turns(steps, m, n) + Left(states[n]) <= Left(states[m]) + 3 * (n - m - Turns(steps, m, n))
  {
    if m < n {
      DrainBound(c, states, steps, m, n - 1);
      StepLeaves(c, states[n - 1], steps[n - 1]);
    }
  }

  /** They can take turns until no admitted key is owed a run: while one is, some worker
      lives and can take it, or finish its run first. */
  lemma {:induction false} TurnsUntilDrained<K(!new)>(c: Config<K>, states: seq<State<K>>, steps: seq<Step<K>>, n: nat,
                                                      k: K)
    requires c.Valid() && IsRun(c, states, steps) && n <= |steps|
    requires forall m :: 0 <= m < n ==> StepNotBlank(c, steps[m])
    ensures Owed(states[n].trace, k) ==> Left(states[n]) > 0 && Enabled(states[n], Work(0, k))
    ensures Left(states[n]) == 0 <==> states[n].workers == []
  {
    NothingStranded(c, states, steps, n);
    var s := states[n];
    if s.workers != [] {
      WeightsAt(s.workers, 0, AtTop);
    }
  }

  // ------------------------------------------------------------ blank keys

  /** What even blank keys leave intact: the counter of the workers. */
  ghost predicate Counted<K>(c: Config<K>, s: State<K>)
  {
    s.q.running == |s.workers| <= c.maxWorkers
  }

  lemma {:induction false} RunKeepsCounted<K(!new)>(c: Config<K>, states: seq<State<K>>, steps: seq<Step<K>>, n: nat)
    requires c.Valid() && IsRun(c, states, steps) && n <= |steps|
    ensures Counted(c, states[n])
  {
    if n > 0 {
      RunKeepsCounted(c, states, steps, n - 1);
    }
  }

  /** The last worker takes a blank key while other keys are pending. */
  ghost predicate TakesBlankLast<K>(c: Config<K>, s: State<K>, step: Step<K>)
  {
    && step.Work? && s.workers == [AtTop] && s.q.pending != {}
    && c.blank(step.choice) && s.q.pending != {step.choice}
  }

  /** With blank keys the guarantee fails, and exactly so: from a state in which nothing
      is stranded, a step strands work if and only if the last worker takes a blank key
      while other keys are pending. */
  lemma {:induction false} StepStrandsExactlyWhen<K(!new)>(c: Config<K>, s: State<K>, step: Step<K>)
    requires c.Valid() && Counted(c, s) && !Stranded(s) && Enabled(s, step)
    ensures Stranded(Next(c, s, step)) <==> TakesBlankLast(c, s, step)
  {
    if step.Work? && s.q.pending != {} {
      assert s.q.pending - {step.choice} == {} <==> s.q.pending == {step.choice};
    }
  }

  lemma {:induction false} StrandedFrom<K(!new)>(c: Config<K>, states: seq<State<K>>, steps: seq<Step<K>>, n: nat)
    requires c.Valid() && IsRun(c, states, steps) && n <= |steps| && Stranded(states[n])
    ensures exists m :: 0 <= m < n && TakesBlankLast(c, states[m], steps[m])
  {
    assert n > 0;
    if Stranded(states[n - 1]) {
      StrandedFrom(c, states, steps, n - 1);
    } else {
      RunKeepsCounted(c, states, steps, n - 1);
      StepStrandsExactlyWhen(c, states[n - 1], steps[n - 1]);
      assert TakesBlankLast(c, states[n - 1], steps[n - 1]);
    }
  }

  /** Over whole runs, with any keys: work is stranded at some point if and only if in some
      step the last worker takes a blank key while other keys are pending. */
  lemma {:induction false} StrandsExactlyWhen<K(!new)>(c: Config<K>, states: seq<State<K>>, steps: seq<Step<K>>)
    requires c.Valid() && IsRun(c, states, steps)
    ensures (exists n :: 0 <= n <= |steps| && Stranded(states[n])) <==>
      exists m :: 0 <= m < |steps| && TakesBlankLast(c, states[m], steps[m])
  {
    if n: nat :| n <= |steps| && Stranded(states[n]) {
      StrandedFrom(c, states, steps, n);
    }
    if m :| 0 <= m < |steps| && TakesBlankLast(c, states[m], steps[m]) {
      RunKeepsCounted(c, states, steps, m);
      StepStrandsExactlyWhen(c, states[m], steps[m]);
      assert Stranded(states[m + 1]);
    }
  }

  /** The detectors' queue knows no blank keys, so it strands nothing in any run. */
  lemma {:induction false} DetectorsStrandNothing(states: seq<State<DetectorKey>>, steps: seq<Step<DetectorKey>>,
                                                  n: nat)
    requires IsRun(DETECTORS, states, steps) && n <= |steps|
    ensures |states[n].workers| <= 2 && !Stranded(states[n])
    ensures states[n].workers == [] ==> forall k :: !Owed(states[n].trace, k)
  {
    NothingStranded(DETECTORS, states, steps, n);
  }

  /** A pool key without a name, admitted before another key, strands that key. */
  lemma {:induction false} BlankKeyStrands()
    ensures var blank, k := PoolKey("s", "svc", "db", "", 0), PoolKey("s", "svc", "db", "timeouts", 0);
      exists states: seq<State<PoolKey>> ::
        && IsRun(POOL, states, [Enqueue(blank), Enqueue(k), Work(0, blank)])
        && Stranded(states[3]) && k in states[3].q.pending
  {
    var blank, k := PoolKey("s", "svc", "db", "", 0), PoolKey("s", "svc", "db", "timeouts", 0);
    var s0 := Initial();
    var s1 := Next(POOL, s0, Enqueue(blank));
    assert s1.q.pending == {blank};
    var s2 := Next(POOL, s1, Enqueue(k));
    assert blank in s2.q.pending && s2.workers == [AtTop];
    var s3 := Next(POOL, s2, Work(0, blank));
    assert k in s3.q.pending && s3.workers == [];
    var states, steps := [s0, s1, s2, s3], [Enqueue(blank), Enqueue(k), Work(0, blank)];
    assert IsRun(POOL, states, steps);
  }
}
