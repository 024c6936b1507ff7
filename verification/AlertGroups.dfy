/** What a pass means for one group, however many rows its query returns for it. */
module AlertGroups {
  import opened AlertLife
  import opened AlertPass
  import opened Wrappers

  // ------------------------------------------------------------ several steps

  /** What the steps emit. */
  function Says(i: Instance, steps: seq<Step>): seq<Emission>
    requires WellFormed(i)
  {
    if steps == [] then []
    else
      var before := steps[..|steps| - 1];
      Says(i, before) + Taken(Next(Life(i, before), steps[|steps| - 1]).emission)
  }

  lemma {:induction false} LifeSnoc(i: Instance, steps: seq<Step>, step: Step)
    requires WellFormed(i)
    ensures var o := Next(Life(i, steps), step);
      Life(i, steps + [step]) == o.instance && Says(i, steps + [step]) == Says(i, steps) + Taken(o.emission)
  {
    assert (steps + [step])[..|steps|] == steps;
  }

  lemma {:induction false} LifeOne(i: Instance, step: Step)
    requires WellFormed(i)
    ensures Life(i, [step]) == Next(i, step).instance && Says(i, [step]) == Taken(Next(i, step).emission)
  {
    assert [step][..0] == [] && Life(i, []) == i && Says(i, []) == [];
    assert [] + Taken(Next(i, step).emission) == Taken(Next(i, step).emission);
  }

  /** What the steps emit if each of them is the first of a new life. */
  function StartEach(steps: seq<Step>): seq<Emission>
  {
    if steps == [] then []
    else StartEach(steps[..|steps| - 1]) + Taken(Next(FRESH, steps[|steps| - 1]).emission)
  }

  /** Some step changes more than the time of the last evaluation. */
  predicate Changes(i: Instance, steps: seq<Step>)
    requires WellFormed(i)
  {
    steps != [] &&
    (|| Changes(i, steps[..|steps| - 1])
     || !Same(Life(i, steps[..|steps| - 1]), Life(i, steps)))
  }

  lemma {:induction false} UnchangedIsSame(i: Instance, steps: seq<Step>)
    requires WellFormed(i) && !Changes(i, steps)
    ensures Same(i, Life(i, steps))
  {
    if steps != [] {
      UnchangedIsSame(i, steps[..|steps| - 1]);
    }
  }

  // ------------------------------------------------------------ the rows of a group

  /** The rows of one group, as evaluations. */
  function StepsFor(rows: seq<Row>, key: string, c: Context): seq<Step>
  {
    if rows == [] then []
    else
      var last := rows[|rows| - 1];
      StepsFor(rows[..|rows| - 1], key, c) + if last.key == key then [StepOf(last, c)] else []
  }

  lemma {:induction false} StepsForLast(rows: seq<Row>, key: string, c: Context)
    requires rows != []
    ensures var before, r := rows[..|rows| - 1], rows[|rows| - 1];
      StepsFor(rows, key, c) == if r.key == key then StepsFor(before, key, c) + [StepOf(r, c)]
                                else StepsFor(before, key, c)
  {
  }

  lemma {:induction false} StepsForKey(rows: seq<Row>, key: string, c: Context)
    ensures key in Keys(rows) <==> StepsFor(rows, key, c) != []
  {
    if rows != [] {
      StepsForKey(rows[..|rows| - 1], key, c);
      assert rows == rows[..|rows| - 1] + [rows[|rows| - 1]];
    }
  }

  /** The instance that a further row of the group finds: a stored group goes on from row
      to row, a new one starts afresh, because the instance made for one row is not found
      by the next. */
  function Current(store: Store, rows: seq<Row>, c: Context, key: string): (i: Instance)
    requires StoreValid(store)
    ensures WellFormed(i)
  {
    if key in store then Life(store[key], StepsFor(rows, key, c)) else FRESH
  }

  /** After the rows `before`, this one ends the pass: its value is no number, or it makes
      its group fire and the silences cannot be looked up. */
  predicate RowFails(store: Store, before: seq<Row>, r: Row, c: Context)
    requires StoreValid(store)
  {
    !r.numeric || Next(Current(store, before, c, r.key), StepOf(r, c)).failed
  }

  /** The number of rows before the first that ends the pass. */
  function Good(store: Store, rows: seq<Row>, c: Context): (n: nat)
    requires StoreValid(store)
    ensures n <= |rows|
  {
    if rows == [] then 0
    else
      var last := |rows| - 1;
      var n := Good(store, rows[..last], c);
      if n == last && !RowFails(store, rows[..last], rows[last], c) then |rows| else n
  }

  lemma {:induction false} GoodIsFirst(store: Store, rows: seq<Row>, c: Context)
    requires StoreValid(store)
    ensures var n := Good(store, rows, c);
      && (n < |rows| ==> RowFails(store, rows[..n], rows[n], c))
      && forall a :: 0 <= a < n ==> !RowFails(store, rows[..a], rows[a], c)
  {
    if rows != [] {
      var before := rows[..|rows| - 1];
      GoodIsFirst(store, before, c);
      assert forall a :: 0 <= a <= |before| ==> before[..a] == rows[..a];
      assert forall a :: 0 <= a < |before| ==> before[a] == rows[a];
    }
  }

  /** The pass has come through the rows `mine` of the group. */
  ghost predicate Reached(store: Store, p: Pass, key: string, mine: seq<Step>)
    requires StoreValid(store)
  {
    && (key in store ==>
          && key in p.known && p.known[key] == Life(store[key], mine)
          && LogOf(p.log, key) == Says(store[key], mine) && key !in p.created
          && (key in p.dirty <==> Changes(store[key], mine)))
    && (key !in store ==>
          && key !in p.known && LogOf(p.log, key) == StartEach(mine)
          && (key in p.created <==> mine != [])
          && (mine != [] ==> p.created[key] == Next(FRESH, mine[|mine| - 1]).instance))
  }

  lemma {:induction false} RecordReaches(store: Store, p: Pass, r: Row, c: Context, mine: seq<Step>)
    requires StoreValid(store) && StoreValid(p.known) && !p.failed && r.numeric && Reached(store, p, r.key, mine)
    requires !TakeRow(p, r, c).failed
    ensures Reached(store, TakeRow(p, r, c), r.key, mine + [StepOf(r, c)])
  {
    var i := Lookup(p.known, r.key);
    var o := Advance(i, r.value, r.breached, r.silence, c);
    var all := mine + [StepOf(r, c)];
    assert o == Next(i, StepOf(r, c));
    assert all[..|mine|] == mine;
    LogOfAppend(p.log, r.key, o.emission, r.key);
    if r.key in store {
      LifeSnoc(store[r.key], mine, StepOf(r, c));
    } else {
      AdvanceLeavesAbsence(FRESH, r, c);
      assert !Same(FRESH, o.instance);
    }
  }

  lemma {:induction false} OtherKeepsReached(store: Store, p: Pass, r: Row, c: Context, key: string, mine: seq<Step>)
    requires StoreValid(store) && StoreValid(p.known) && r.key != key && Reached(store, p, key, mine)
    ensures Reached(store, AdvanceKey(p, r, c), key, mine)
  {
    if !p.failed {
      RecordOther(store, p, r.key, Advance(Lookup(p.known, r.key), r.value, r.breached, r.silence, c), key);
    }
  }

  /** The rows fail exactly if one of them ends the pass by itself. */
  lemma {:induction false} FailsAtFirst(store: Store, rows: seq<Row>, c: Context)
    requires StoreValid(store)
    ensures AdvanceRows(Begin(store), rows, c).failed <==> Good(store, rows, c) < |rows|
  {
    if rows != [] {
      var before, r := rows[..|rows| - 1], rows[|rows| - 1];
      FailsAtFirst(store, before, c);
      if !AdvanceRows(Begin(store), before, c).failed {
        RowsReach(store, before, c, r.key);
      }
    }
  }

  lemma {:induction false} RowsReach(store: Store, rows: seq<Row>, c: Context, key: string)
    requires StoreValid(store) && !AdvanceRows(Begin(store), rows, c).failed
    ensures Reached(store, AdvanceRows(Begin(store), rows, c), key, StepsFor(rows, key, c))
  {
    if rows != [] {
      var before, r := rows[..|rows| - 1], rows[|rows| - 1];
      var p := AdvanceRows(Begin(store), before, c);
      RowsReach(store, before, c, key);
      StepsForLast(rows, key, c);
      if r.key == key {
        RecordReaches(store, p, r, c, StepsFor(before, key, c));
      } else {
        OtherKeepsReached(store, p, r, c, key, StepsFor(before, key, c));
      }
    }
  }

  // ------------------------------------------------------------ the steps of a pass

  /** The steps that the successful rows `mine` of a group come to: each is one of a stored
      group, and of a new group only the last. */
  function Counted(store: Store, key: string, mine: seq<Step>): seq<Step>
  {
    if key in store || mine == [] then mine else [mine[|mine| - 1]]
  }

  /** What the other rows emit. */
  function Uncounted(store: Store, key: string, mine: seq<Step>): seq<Emission>
  {
    if key in store || mine == [] then [] else StartEach(mine[..|mine| - 1])
  }

  /** What a pass means for a group. Every row of a stored group before the one that ends
      the pass is a step, and of a new group only the last of them. A group without a row
      vanishes, unless the pass has ended early. The row that ends the pass is no step;
      but if earlier rows have its group written back, it counts as if it were silenced. */
  function StepsTaken(store: Store, rows: seq<Row>, c: Context, key: string): seq<Step>
    requires StoreValid(store)
  {
    var n := Good(store, rows, c);
    var mine := StepsFor(rows[..n], key, c);
    if mine == [] && n == |rows| then [Vanish(c)]
    else if n < |rows| && rows[n].numeric && rows[n].key == key && key in store && Changes(store[key], mine)
    then mine + [StepOf(rows[n].(silence := Silenced), c)]
    else Counted(store, key, mine)
  }

  /** What a pass emits for a group and does not keep: the rows of a new group before its
      last one. */
  function Forgotten(store: Store, rows: seq<Row>, c: Context, key: string): seq<Emission>
    requires StoreValid(store)
  {
    Uncounted(store, key, StepsFor(rows[..Good(store, rows, c)], key, c))
  }

  /** The pass does to `key` what `steps` do, and emits `lost` before. */
  ghost predicate Moved(store: Store, p: Pass, key: string, lost: seq<Emission>, steps: seq<Step>)
    requires StoreValid(store)
  {
    && Same(Lookup(Flush(store, p), key), Life(Lookup(store, key), steps))
    && LogOf(p.log, key) == lost + Says(Lookup(store, key), steps)
  }

  /** A pass whose rows all succeed. */
  lemma {:induction false} WholePassMoves(store: Store, order: seq<string>, rows: seq<Row>, c: Context, key: string)
    requires StoreValid(store) && forall k :: k in store <==> k in order
    requires !AdvanceRows(Begin(store), rows, c).failed
    ensures Moved(store, Evaluation(store, order, rows, c), key,
                  Forgotten(store, rows, c, key), StepsTaken(store, rows, c, key))
  {
    var p, mine := AdvanceRows(Begin(store), rows, c), StepsFor(rows, key, c);
    FailsAtFirst(store, rows, c);
    assert rows[..|rows|] == rows;
    RowsReach(store, rows, c, key);
    StepsForKey(rows, key, c);
    if mine == [] {
      LifeOne(Lookup(store, key), Vanish(c));
    }
    if mine == [] && key in store {
      MissingShows(store, p, order, Keys(rows), c, key);
    } else {
      MissingSkips(store, p, order, Keys(rows), c, key);
      ReachedMoves(store, p, key, mine);
    }
  }

  lemma {:induction false} ReachedMoves(store: Store, p: Pass, key: string, mine: seq<Step>)
    requires StoreValid(store) && Reached(store, p, key, mine)
    ensures Moved(store, p, key, Uncounted(store, key, mine), Counted(store, key, mine))
  {
    FlushedAt(store, p, key);
    if key in store {
      if !Changes(store[key], mine) {
        UnchangedIsSame(store[key], mine);
      }
    } else if mine != [] {
      LifeOne(FRESH, mine[|mine| - 1]);
    }
  }

  lemma {:induction false} StopsAtFirst(store: Store, rows: seq<Row>, c: Context)
    requires StoreValid(store) && AdvanceRows(Begin(store), rows, c).failed
    ensures var n := Good(store, rows, c);
      && n < |rows| && !AdvanceRows(Begin(store), rows[..n], c).failed
      && AdvanceRows(Begin(store), rows, c) == TakeRow(AdvanceRows(Begin(store), rows[..n], c), rows[n], c)
  {
    var n := |rows| - 1;
    FailsAtFirst(store, rows, c);
    FailsAtFirst(store, rows[..n], c);
    if AdvanceRows(Begin(store), rows[..n], c).failed {
      StopsAtFirst(store, rows[..n], c);
      assert rows[..n][..Good(store, rows, c)] == rows[..Good(store, rows, c)];
    }
  }

  /** A failing lookup leaves what silencing the row would, without an announcement. */
  lemma {:induction false} FailingIsSilenced(i: Instance, r: Row, c: Context)
    requires WellFormed(i) && Advance(i, r.value, r.breached, r.silence, c).failed
    ensures var o := Advance(i, r.value, r.breached, r.silence, c);
      && o.emission.None?
      && Next(i, StepOf(r.(silence := Silenced), c)) == Outcome(o.instance, None, false)
  {
  }

  /** The row that ends the pass, seen from its own group. */
  lemma {:induction false} FailingRowMoves(store: Store, p: Pass, r: Row, c: Context, mine: seq<Step>)
    requires StoreValid(store) && StoreValid(p.known) && !p.failed && Reached(store, p, r.key, mine)
    requires r.numeric && TakeRow(p, r, c).failed
    ensures Moved(store, TakeRow(p, r, c), r.key, Uncounted(store, r.key, mine),
                  if r.key in store && Changes(store[r.key], mine)
                  then mine + [StepOf(r.(silence := Silenced), c)] else Counted(store, r.key, mine))
  {
    var i, p' := Lookup(p.known, r.key), TakeRow(p, r, c);
    var o := Advance(i, r.value, r.breached, r.silence, c);
    FailingIsSilenced(i, r, c);
    LogOfAppend(p.log, r.key, o.emission, r.key);
    FlushedAt(store, p, r.key);
    FlushedAt(store, p', r.key);
    if r.key in store && Changes(store[r.key], mine) {
      LifeSnoc(store[r.key], mine, StepOf(r.(silence := Silenced), c));
    } else {
      ReachedMoves(store, p, r.key, mine);
    }
  }

  /** A pass that a row ends. */
  lemma {:induction false} FailedPassMoves(store: Store, order: seq<string>, rows: seq<Row>, c: Context, key: string)
    requires StoreValid(store) && AdvanceRows(Begin(store), rows, c).failed
    ensures Moved(store, Evaluation(store, order, rows, c), key,
                  Forgotten(store, rows, c, key), StepsTaken(store, rows, c, key))
  {
    StopsAtFirst(store, rows, c);
    var n := Good(store, rows, c);
    var p, r, mine := AdvanceRows(Begin(store), rows[..n], c), rows[n], StepsFor(rows[..n], key, c);
    RowsReach(store, rows[..n], c, key);
    ReachedMoves(store, p, key, mine);
    if !r.numeric {
      FlushedAt(store, p, key);
      FlushedAt(store, TakeRow(p, r, c), key);
    } else if r.key == key {
      FailingRowMoves(store, p, r, c, mine);
    } else {
      RecordOther(store, p, r.key, Advance(Lookup(p.known, r.key), r.value, r.breached, r.silence, c), key);
    }
  }

  /** Whatever rows its query returns, and whether it fails or not, a pass takes each
      group through the steps above and through no other, and emits what they emit; only
      the rows of a new group before its last are emitted and forgotten. Only the time of
      the last evaluation may be left unwritten. */
  lemma {:induction false} PassTakesSteps(store: Store, order: seq<string>, rows: seq<Row>, c: Context, key: string)
    requires StoreValid(store) && forall k :: k in store <==> k in order
    ensures Moved(store, Evaluation(store, order, rows, c), key,
                  Forgotten(store, rows, c, key), StepsTaken(store, rows, c, key))
  {
    if AdvanceRows(Begin(store), rows, c).failed {
      FailedPassMoves(store, order, rows, c, key);
    } else {
      WholePassMoves(store, order, rows, c, key);
    }
  }

  // ------------------------------------------------------------ a group with one row

  lemma {:induction false} StepsForPrefix(rows: seq<Row>, n: nat, key: string, c: Context)
    requires n <= |rows|
    ensures |StepsFor(rows[..n], key, c)| <= |StepsFor(rows, key, c)|
  {
    if n < |rows| {
      StepsForPrefix(rows[..|rows| - 1], n, key, c);
      assert rows[..|rows| - 1][..n] == rows[..n];
    } else {
      assert rows[..n] == rows;
    }
  }

  lemma {:induction false} RowIsMore(rows: seq<Row>, n: nat, key: string, c: Context)
    requires n < |rows| && rows[n].key == key
    ensures |StepsFor(rows[..n], key, c)| < |StepsFor(rows, key, c)|
  {
    var to := rows[..n + 1];
    assert to[..n] == rows[..n] && to[n] == rows[n];
    StepsForLast(to, key, c);
    StepsForPrefix(rows, n + 1, key, c);
  }

  /** A pass in which a group has at most one row is at most one step of its life, and
      keeps all that it emits. */
  lemma {:induction false} OneRowOneStep(store: Store, rows: seq<Row>, c: Context, key: string)
    requires StoreValid(store) && |StepsFor(rows, key, c)| <= 1
    ensures |StepsTaken(store, rows, c, key)| <= 1 && Forgotten(store, rows, c, key) == []
  {
    var n := Good(store, rows, c);
    var mine := StepsFor(rows[..n], key, c);
    StepsForPrefix(rows, n, key, c);
    if n < |rows| && rows[n].key == key {
      RowIsMore(rows, n, key, c);
      assert mine == [];
    }
  }
}
