/** What a pass does when its query returns several rows for one group. */
module AlertRepeatedRows {
  import opened AlertGroups
  import opened AlertLife
  import opened AlertPass
  import opened Wrappers

  // ------------------------------------------------------------ new groups

  lemma {:induction false} NewGroupTakes(store: Store, rows: seq<Row>, c: Context, key: string)
    requires StoreValid(store) && key !in store
    ensures var mine := StepsFor(rows[..Good(store, rows, c)], key, c);
      var steps, lost := StepsTaken(store, rows, c, key), Forgotten(store, rows, c, key);
      && Life(FRESH, steps) == (if mine == [] then FRESH else Next(FRESH, mine[|mine| - 1]).instance)
      && lost + Says(FRESH, steps) == StartEach(mine)
  {
    var mine := StepsFor(rows[..Good(store, rows, c)], key, c);
    if mine == [] {
      LifeOne(FRESH, Vanish(c));
    } else {
      LifeOne(FRESH, mine[|mine| - 1]);
      assert StepsTaken(store, rows, c, key) == [mine[|mine| - 1]];
    }
  }

  /** A group that is not stored yet starts afresh with every row; the instance made for
      the last of them is the one that is stored. */
  lemma {:induction false} NewGroupStartsAgain(store: Store, order: seq<string>, rows: seq<Row>, c: Context,
                                               key: string)
    requires StoreValid(store) && key !in store && forall k :: k in store <==> k in order
    ensures var p := Evaluation(store, order, rows, c);
      var mine := StepsFor(rows[..Good(store, rows, c)], key, c);
      && LogOf(p.log, key) == StartEach(mine)
      && Same(Lookup(Flush(store, p), key), if mine == [] then FRESH else Next(FRESH, mine[|mine| - 1]).instance)
  {
    PassTakesSteps(store, order, rows, c, key);
    NewGroupTakes(store, rows, c, key);
  }

  /** How many of the emissions are announcements of a firing, sent or not. */
  function Firings(es: seq<Emission>): nat
  {
    if es == [] then 0
    else Firings(es[..|es| - 1]) + if es[|es| - 1].transition.ToFiring? then 1 else 0
  }

  /** How many of them were sent on the channel. */
  function Sends(es: seq<Emission>, channel: Channel): nat
  {
    if es == [] then 0
    else Sends(es[..|es| - 1], channel) + if SentOn(Some(es[|es| - 1]), channel) then 1 else 0
  }

  predicate IsFiring(e: Option<Emission>)
  {
    e.Some? && e.value.transition.ToFiring?
  }

  lemma {:induction false} FiringsAppend(es: seq<Emission>, e: Option<Emission>)
    ensures Firings(es + Taken(e)) == Firings(es) + if IsFiring(e) then 1 else 0
  {
    if e.Some? {
      assert (es + [e.value])[..|es|] == es;
    } else {
      assert es + Taken(e) == es;
    }
  }

  lemma {:induction false} SendsAppend(es: seq<Emission>, e: Option<Emission>, channel: Channel)
    ensures Sends(es + Taken(e), channel) == Sends(es, channel) + if SentOn(e, channel) then 1 else 0
  {
    if e.Some? {
      assert (es + [e.value])[..|es|] == es;
    } else {
      assert es + Taken(e) == es;
    }
  }

  /** A step that fires a new instance at once. */
  predicate FiresAtOnce(step: Step)
  {
    step.Evaluate? && step.breached && step.silence.Audible? && step.c.pendingFor <= 0
  }

  predicate SendsAtOnce(step: Step, channel: Channel)
  {
    FiresAtOnce(step) && Reaches(step.c, channel)
  }

  lemma {:induction false} FreshFires(step: Step, channel: Channel)
    ensures IsFiring(Next(FRESH, step).emission) <==> FiresAtOnce(step)
    ensures SentOn(Next(FRESH, step).emission, channel) <==> SendsAtOnce(step, channel)
    ensures LastOn(Next(FRESH, step).instance, channel)
      == if SendsAtOnce(step, channel) then Some(step.c.now) else None
  {
  }

  function FiringSteps(steps: seq<Step>): nat
  {
    if steps == [] then 0
    else FiringSteps(steps[..|steps| - 1]) + if FiresAtOnce(steps[|steps| - 1]) then 1 else 0
  }

  function SendingSteps(steps: seq<Step>, channel: Channel): nat
  {
    if steps == [] then 0
    else SendingSteps(steps[..|steps| - 1], channel) + if SendsAtOnce(steps[|steps| - 1], channel) then 1 else 0
  }

  lemma {:induction false} StartEachFires(steps: seq<Step>, channel: Channel)
    ensures Firings(StartEach(steps)) == FiringSteps(steps)
    ensures Sends(StartEach(steps), channel) == SendingSteps(steps, channel)
  {
    if steps != [] {
      var before, step := steps[..|steps| - 1], steps[|steps| - 1];
      StartEachFires(before, channel);
      FreshFires(step, channel);
      FiringsAppend(StartEach(before), Next(FRESH, step).emission);
      SendsAppend(StartEach(before), Next(FRESH, step).emission, channel);
    }
  }

  /** The evaluations of one pass share its time and its settings. */
  ghost predicate Within(steps: seq<Step>, c: Context)
  {
    forall k :: 0 <= k < |steps| ==> Timed(steps[k]) && steps[k].c == c
  }

  lemma {:induction false} StepsForContext(rows: seq<Row>, key: string, c: Context)
    ensures Within(StepsFor(rows, key, c), c)
  {
    if rows != [] {
      StepsForContext(rows[..|rows| - 1], key, c);
    }
  }

  lemma {:induction false} LastStartRemembers(mine: seq<Step>, c: Context, channel: Channel)
    requires Within(mine, c)
    ensures LastOn(if mine == [] then FRESH else Next(FRESH, mine[|mine| - 1]).instance, channel)
      == if mine != [] && SendsAtOnce(mine[|mine| - 1], channel) then Some(c.now) else None
  {
    if mine != [] {
      FreshFires(mine[|mine| - 1], channel);
    }
  }

  /** The first pass over a group emits a firing for each of its rows that is breached and
      audible, with no pending time, and sends each of them on every channel that is
      enabled, whatever the cooldown. The store remembers a notification only if the last
      row sent it. */
  lemma {:induction false} NewGroupFiresOncePerRow(store: Store, order: seq<string>, rows: seq<Row>, c: Context,
                                                   key: string, channel: Channel)
    requires StoreValid(store) && key !in store && forall k :: k in store <==> k in order
    ensures var p := Evaluation(store, order, rows, c);
      var mine := StepsFor(rows[..Good(store, rows, c)], key, c);
      && Firings(LogOf(p.log, key)) == FiringSteps(mine)
      && Sends(LogOf(p.log, key), channel) == SendingSteps(mine, channel)
      && LastOn(Lookup(Flush(store, p), key), channel)
         == if mine != [] && SendsAtOnce(mine[|mine| - 1], channel) then Some(c.now) else None
  {
    var good := rows[..Good(store, rows, c)];
    NewGroupStartsAgain(store, order, rows, c, key);
    StartEachFires(StepsFor(good, key, c), channel);
    StepsForContext(good, key, c);
    LastStartRemembers(StepsFor(good, key, c), c, channel);
  }

  lemma {:induction false} TwoRows(p: Pass, r0: Row, r1: Row, c: Context)
    requires StoreValid(p.known)
    ensures AdvanceRows(p, [r0, r1], c) == TakeRow(TakeRow(p, r0, c), r1, c)
    ensures AdvanceRows(p, [r0], c) == TakeRow(p, r0, c)
  {
    assert [r0, r1][..1] == [r0] && [r0][..0] == [];
    assert AdvanceRows(p, [r0], c) == TakeRow(p, r0, c);
  }

  lemma {:induction false} FreshRowFires(p: Pass, r: Row, c: Context)
    requires StoreValid(p.known) && !p.failed && r.key !in p.known
    requires r.numeric && FiresAtOnce(StepOf(r, c)) && !c.quiet && c.browser && !c.pushover
    ensures var p' := TakeRow(p, r, c);
      && !p'.failed && p'.known == p.known
      && LogOf(p'.log, r.key) == LogOf(p.log, r.key) + [Emission(ToFiring, c.now, true, false)]
  {
    LogOfAppend(p.log, r.key, Advance(FRESH, r.value, r.breached, r.silence, c).emission, r.key);
  }

  /** A query with two breached rows and no grouping column, on a rule that has never
      been evaluated: at any time two firing notifications in the same instant, although
      the global cooldown is a minute. */
  lemma {:induction false} TwoRowsNotifyTwice(now: int)
    ensures var c := Context(now, 0, 0, 0, 60_000_000_000, false, true, false, false);
      var rows := [Row("all", 7.0, true, Audible, true), Row("all", 8.0, true, Audible, true)];
      var e := Emission(ToFiring, now, true, false);
      var p := AdvanceRows(Begin(map[]), rows, c);
      !p.failed && LogOf(p.log, "all") == [e, e]
  {
    var c := Context(now, 0, 0, 0, 60_000_000_000, false, true, false, false);
    var r0, r1 := Row("all", 7.0, true, Audible, true), Row("all", 8.0, true, Audible, true);
    var p := Begin(map[]);
    FreshRowFires(p, r0, c);
    FreshRowFires(TakeRow(p, r0, c), r1, c);
    TwoRows(p, r0, r1, c);
  }

  // ------------------------------------------------------------ failing lookups

  lemma {:induction false} FailingFires(i: Instance, r: Row, c: Context)
    requires WellFormed(i) && Advance(i, r.value, r.breached, r.silence, c).failed
    ensures !i.status.Firing? && Advance(i, r.value, r.breached, r.silence, c).instance.status.Firing?
    ensures Advance(i, r.value, r.breached, r.silence, c).emission.None?
  {
  }

  /** A row whose lookup fails is announced by nobody. Yet it leaves its stored group
      firing, and so never to be announced in this episode, if and only if an earlier row
      of the same pass has already changed that group. */
  lemma {:induction false} FailedLookupPersistsExactlyWhen(store: Store, rows: seq<Row>, r: Row, c: Context)
    requires StoreValid(store) && r.numeric && r.key in store
    requires !AdvanceRows(Begin(store), rows, c).failed && TakeRow(AdvanceRows(Begin(store), rows, c), r, c).failed
    ensures var p := AdvanceRows(Begin(store), rows, c); var p' := TakeRow(p, r, c);
      && LogOf(p'.log, r.key) == LogOf(p.log, r.key)
      && (Lookup(Flush(store, p'), r.key).status.Firing? <==> Changes(store[r.key], StepsFor(rows, r.key, c)))
  {
    var p, mine := AdvanceRows(Begin(store), rows, c), StepsFor(rows, r.key, c);
    var i := Lookup(p.known, r.key);
    RowsReach(store, rows, c, r.key);
    FailingFires(i, r, c);
    LogOfAppend(p.log, r.key, None, r.key);
    FlushedAt(store, TakeRow(p, r, c), r.key);
    if !Changes(store[r.key], mine) {
      UnchangedIsSame(store[r.key], mine);
    }
  }

  lemma {:induction false} RowResolves(store: Store, r: Row, c: Context)
    requires StoreValid(store) && r.key in store && store[r.key].status.Pending? && store[r.key].lastBrowserAt.None?
    requires r.numeric && !r.breached && !c.quiet && c.browser && !c.pushover
    ensures var p := AdvanceRows(Begin(store), [r], c);
      && !p.failed && r.key in p.known && p.known[r.key].status.Resolved?
      && LogOf(p.log, r.key) == [Emission(ToResolved, c.now, true, false)]
      && Changes(store[r.key], StepsFor([r], r.key, c))
  {
    assert [r][..0] == [];
    assert AdvanceRows(Begin(store), [r], c) == TakeRow(Begin(store), r, c);
    LogOfAppend([], r.key, Some(Emission(ToResolved, c.now, true, false)), r.key);
    RowsReach(store, [r], c, r.key);
  }

  lemma {:induction false} RestingFails(p: Pass, r: Row, c: Context)
    requires StoreValid(p.known) && !p.failed && r.key in p.known && p.known[r.key].status.Resolved?
    requires r.numeric && r.breached && r.silence.Unknown? && c.pendingFor <= 0
    ensures TakeRow(p, r, c).failed
  {
  }

  /** A pending group with two rows: the first resolves it, the second fires it but the
      silences cannot be looked up. It is stored as firing without a notification. */
  lemma {:induction false} UnannouncedFiring(now: int)
    ensures var c := Context(now, 0, 0, 0, 0, false, true, false, false);
      var i := Instance(Pending, 7.0, Some(now - 500), None, None, None, None, None, now - 500);
      var rows := [Row("all", 1.0, false, Audible, true), Row("all", 8.0, true, Unknown, true)];
      var p := AdvanceRows(Begin(map["all" := i]), rows, c);
      && Lookup(Flush(map["all" := i], p), "all").status.Firing?
      && LogOf(p.log, "all") == [Emission(ToResolved, now, true, false)]
  {
    var c := Context(now, 0, 0, 0, 0, false, true, false, false);
    var i := Instance(Pending, 7.0, Some(now - 500), None, None, None, None, None, now - 500);
    var store := map["all" := i];
    var r0, r1 := Row("all", 1.0, false, Audible, true), Row("all", 8.0, true, Unknown, true);
    RowResolves(store, r0, c);
    var p := AdvanceRows(Begin(store), [r0], c);
    RestingFails(p, r1, c);
    FailedLookupPersistsExactlyWhen(store, [r0], r1, c);
    TwoRows(Begin(store), r0, r1, c);
  }
}
