/** One evaluation pass of an alert rule over the instances loaded for it. */
module AlertPass {
  import opened AlertLife
  import opened Wrappers

  /** One result row. `numeric` says that its value is a number; `value` and `breached`
      mean nothing otherwise. */
  datatype Row = Row(key: string, value: real, breached: bool, silence: Silence, numeric: bool)

  /** A pass under way. `known` holds the loaded instances, which evaluations update in
      place, and `dirty` those of them to be written back. An instance made for a new
      key goes only to `created`: it does not join the loaded ones. */
  datatype Pass = Pass(known: map<string, Instance>, dirty: set<string>, created: map<string, Instance>,
                       log: seq<(string, Emission)>, failed: bool)

  type Store = map<string, Instance>

  ghost predicate StoreValid(store: Store)
  {
    forall k :: k in store ==> WellFormed(store[k]) && !store[k].status.Absent?
  }

  function Begin(store: Store): Pass
  {
    Pass(store, {}, map[], [], false)
  }

  /** What the write buffer leaves in the store. */
  function Flush(store: Store, p: Pass): Store
  {
    store + (map k | k in p.dirty && k in p.known :: p.known[k]) + p.created
  }

  function Lookup(store: Store, key: string): Instance
  {
    if key in store then store[key] else FRESH
  }

  /** Instances that differ at most in the time of their last evaluation, which alone
      is not worth a write. */
  predicate Same(i: Instance, j: Instance)
  {
    i.(lastEvaluatedAt := 0) == j.(lastEvaluatedAt := 0)
  }

  function Taken(e: Option<Emission>): seq<Emission>
  {
    if e.Some? then [e.value] else []
  }

  function Logged(key: string, e: Option<Emission>): seq<(string, Emission)>
  {
    if e.Some? then [(key, e.value)] else []
  }

  /** What an evaluation with outcome `o` leaves: a failed one queues no write, and one
      that changed nothing worth keeping does not either. */
  function Record(p: Pass, key: string, o: Outcome): (p': Pass)
  {
    var write := !o.failed && !Same(Lookup(p.known, key), o.instance);
    Pass(if key in p.known then p.known[key := o.instance] else p.known,
         if write && key in p.known then p.dirty + {key} else p.dirty,
         if write && key !in p.known then p.created[key := o.instance] else p.created,
         p.log + Logged(key, o.emission),
         o.failed)
  }

  function AdvanceKey(p: Pass, r: Row, c: Context): (p': Pass)
    requires StoreValid(p.known)
    ensures StoreValid(p'.known) && p'.known.Keys == p.known.Keys
  {
    if p.failed then p
    else Record(p, r.key, Advance(Lookup(p.known, r.key), r.value, r.breached, r.silence, c))
  }

  /** One turn of the loop over the rows: a value that is no number ends the pass. */
  function TakeRow(p: Pass, r: Row, c: Context): (p': Pass)
    requires StoreValid(p.known)
    ensures StoreValid(p'.known) && p'.known.Keys == p.known.Keys
  {
    if p.failed then p
    else if !r.numeric then p.(failed := true)
    else AdvanceKey(p, r, c)
  }

  function AdvanceRows(p: Pass, rows: seq<Row>, c: Context): (p': Pass)
    requires StoreValid(p.known)
    ensures StoreValid(p'.known) && p'.known.Keys == p.known.Keys
  {
    if rows == [] then p
    else TakeRow(AdvanceRows(p, rows[..|rows| - 1], c), rows[|rows| - 1], c)
  }

  function ResolveKey(p: Pass, key: string, seen: set<string>, c: Context): (p': Pass)
    requires StoreValid(p.known)
    ensures StoreValid(p'.known) && p'.known.Keys == p.known.Keys
  {
    if key !in p.known || key in seen || p.known[key].status.Resolved? then p
    else
      var o := Disappear(p.known[key], c);
      p.(known := p.known[key := o.instance], dirty := p.dirty + {key}, log := p.log + Logged(key, o.emission))
  }

  /** Resolves, in their order, the loaded instances whose group was not seen. */
  function ResolveMissing(p: Pass, order: seq<string>, seen: set<string>, c: Context): (p': Pass)
    requires StoreValid(p.known)
    ensures StoreValid(p'.known) && p'.known.Keys == p.known.Keys
  {
    if order == [] then p
    else ResolveKey(ResolveMissing(p, order[..|order| - 1], seen, c), order[|order| - 1], seen, c)
  }

  function Keys(rows: seq<Row>): set<string>
  {
    set r | r in rows :: r.key
  }

  /** The whole pass of a threshold rule; a failed evaluation ends it early. */
  function Evaluation(store: Store, order: seq<string>, rows: seq<Row>, c: Context): Pass
    requires StoreValid(store)
  {
    var p := AdvanceRows(Begin(store), rows, c);
    if p.failed then p else ResolveMissing(p, order, Keys(rows), c)
  }

  // ------------------------------------------------------------ one key of a pass

  function LogOf(log: seq<(string, Emission)>, key: string): seq<Emission>
  {
    if log == [] then []
    else LogOf(log[..|log| - 1], key) + if log[|log| - 1].0 == key then [log[|log| - 1].1] else []
  }

  lemma {:induction false} LogOfAppend(log: seq<(string, Emission)>, k: string, e: Option<Emission>, key: string)
    ensures LogOf(log + Logged(k, e), key) == LogOf(log, key) + (if k == key && e.Some? then [e.value] else [])
  {
    if e.Some? {
      assert (log + Logged(k, e))[..|log|] == log;
    } else {
      assert log + Logged(k, e) == log;
    }
  }

  /** The pass has done to `key` what `o` says, starting from the stored instance. */
  ghost predicate Shows(store: Store, p: Pass, key: string, o: Outcome)
  {
    && Same(Lookup(Flush(store, p), key), o.instance)
    && LogOf(p.log, key) == (if o.emission.Some? then [o.emission.value] else [])
    && (key in store ==> key in p.known && key !in p.created && Same(p.known[key], o.instance))
  }

  /** The pass has not come to `key` yet. */
  ghost predicate Untouched(store: Store, p: Pass, key: string)
  {
    && LogOf(p.log, key) == [] && key !in p.created && key !in p.dirty
    && (key in store <==> key in p.known)
    && (key in store ==> p.known[key] == store[key])
  }

  lemma {:induction false} RecordOther(store: Store, p: Pass, k: string, o: Outcome, key: string)
    requires k != key
    ensures var p' := Record(p, k, o);
      && LogOf(p'.log, key) == LogOf(p.log, key)
      && (key in p'.created <==> key in p.created) && (key in p'.dirty <==> key in p.dirty)
      && (key in p'.known <==> key in p.known) && (key in p.known ==> p'.known[key] == p.known[key])
      && Lookup(Flush(store, p'), key) == Lookup(Flush(store, p), key)
  {
    LogOfAppend(p.log, k, o.emission, key);
  }

  lemma {:induction false} FlushedAt(store: Store, p: Pass, key: string)
    ensures Lookup(Flush(store, p), key) ==
      if key in p.created then p.created[key]
      else if key in p.dirty && key in p.known then p.known[key]
      else Lookup(store, key)
  {
  }

  function StepOf(r: Row, c: Context): Step
  {
    Evaluate(r.value, r.breached, r.silence, c)
  }

  // ------------------------------------------------------------ missing groups

  lemma {:induction false} ResolveOther(store: Store, p: Pass, k: string, seen: set<string>, c: Context, key: string)
    requires StoreValid(p.known) && (k != key || key in seen || key !in p.known)
    ensures var p' := ResolveKey(p, k, seen, c);
      && LogOf(p'.log, key) == LogOf(p.log, key) && p'.created == p.created && p'.failed == p.failed
      && (key in p'.dirty <==> key in p.dirty)
      && (key in p.known ==> p'.known[key] == p.known[key])
      && Lookup(Flush(store, p'), key) == Lookup(Flush(store, p), key)
  {
    var p' := ResolveKey(p, k, seen, c);
    FlushedAt(store, p, key);
    FlushedAt(store, p', key);
    if p' != p {
      LogOfAppend(p.log, k, Disappear(p.known[k], c).emission, key);
    }
  }

  lemma {:induction false} ResolveSelf(store: Store, p: Pass, seen: set<string>, c: Context, key: string)
    requires StoreValid(store) && StoreValid(p.known) && Untouched(store, p, key) && key in store && key !in seen
    ensures Shows(store, ResolveKey(p, key, seen, c), key, Disappear(store[key], c))
  {
    var o := Disappear(store[key], c);
    var p' := ResolveKey(p, key, seen, c);
    FlushedAt(store, p', key);
    if !store[key].status.Resolved? {
      LogOfAppend(p.log, key, o.emission, key);
    }
  }

  /** Once resolved as missing, a key stays so for the rest of the pass. */
  lemma {:induction false} ResolveAgain(store: Store, p: Pass, seen: set<string>, c: Context, key: string)
    requires StoreValid(store) && StoreValid(p.known) && key in store
    requires Shows(store, p, key, Disappear(store[key], c))
    ensures ResolveKey(p, key, seen, c) == p
  {
    assert p.known[key].status == Disappear(store[key], c).instance.status;
  }

  lemma {:induction false} MissingShows(store: Store, p: Pass, order: seq<string>, seen: set<string>, c: Context,
                                        key: string)
    requires StoreValid(store) && StoreValid(p.known) && Untouched(store, p, key) && key in store && key !in seen
    ensures var p' := ResolveMissing(p, order, seen, c);
      if key in order then Shows(store, p', key, Disappear(store[key], c)) else Untouched(store, p', key)
  {
    if order != [] {
      var n := |order| - 1;
      var before, k := order[..n], order[n];
      MissingShows(store, p, before, seen, c, key);
      var q := ResolveMissing(p, before, seen, c);
      assert key in order <==> key in before || k == key;
      if k != key {
        ResolveOther(store, q, k, seen, c, key);
      } else if key in before {
        ResolveAgain(store, q, seen, c, key);
      } else {
        ResolveSelf(store, q, seen, c, key);
      }
    }
  }

  lemma {:induction false} MissingSkips(store: Store, p: Pass, order: seq<string>, seen: set<string>, c: Context,
                                        key: string)
    requires StoreValid(p.known) && (key in seen || key !in p.known)
    ensures var p' := ResolveMissing(p, order, seen, c);
      && LogOf(p'.log, key) == LogOf(p.log, key)
      && Lookup(Flush(store, p'), key) == Lookup(Flush(store, p), key)
  {
    if order != [] {
      MissingSkips(store, p, order[..|order| - 1], seen, c, key);
      ResolveOther(store, ResolveMissing(p, order[..|order| - 1], seen, c), order[|order| - 1], seen, c, key);
    }
  }

  lemma {:induction false} MissingKeepsCreated(p: Pass, order: seq<string>, seen: set<string>, c: Context)
    requires StoreValid(p.known)
    ensures ResolveMissing(p, order, seen, c).created == p.created
  {
    if order != [] {
      MissingKeepsCreated(p, order[..|order| - 1], seen, c);
    }
  }

  ghost predicate CreatedValid(p: Pass)
  {
    forall k :: k in p.created ==> WellFormed(p.created[k]) && !p.created[k].status.Absent?
  }

  lemma FlushValid(store: Store, p: Pass)
    requires StoreValid(store) && StoreValid(p.known) && CreatedValid(p)
    ensures StoreValid(Flush(store, p))
  {
  }

  lemma AdvanceLeavesAbsence(i: Instance, r: Row, c: Context)
    requires WellFormed(i)
    ensures !Advance(i, r.value, r.breached, r.silence, c).instance.status.Absent?
  {
  }

  // ------------------------------------------------------------ the store

  lemma {:induction false} RowsCreateValid(store: Store, rows: seq<Row>, c: Context)
    requires StoreValid(store)
    ensures CreatedValid(AdvanceRows(Begin(store), rows, c))
  {
    if rows != [] {
      var p, r := AdvanceRows(Begin(store), rows[..|rows| - 1], c), rows[|rows| - 1];
      RowsCreateValid(store, rows[..|rows| - 1], c);
      AdvanceLeavesAbsence(Lookup(p.known, r.key), r, c);
    }
  }

  lemma {:induction false} EvaluationValid(store: Store, order: seq<string>, rows: seq<Row>, c: Context)
    requires StoreValid(store)
    ensures StoreValid(Flush(store, Evaluation(store, order, rows, c)))
  {
    RowsCreateValid(store, rows, c);
    MissingKeepsCreated(AdvanceRows(Begin(store), rows, c), order, Keys(rows), c);
    FlushValid(store, Evaluation(store, order, rows, c));
  }

  /** An acknowledgement, or its withdrawal, of a stored group. */
  function Acked(store: Store, key: string, step: Step): (s: Store)
    requires StoreValid(store) && (step.Acknowledge? || step.Unacknowledge?)
    ensures StoreValid(s)
  {
    if key in store then store[key := Next(store[key], step).instance] else store
  }
}
