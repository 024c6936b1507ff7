/** Event rules: every event identifier is announced once, and never again. */
module AlertEvents {
  import opened AlertLife
  import opened AlertPass
  import opened AlertRepeatedRows
  import opened Wrappers

  /** One result row of an event rule. `baseKey` is the group of the aggregate rule that
      this one may have been converted from, `time` the event's own time, if given. */
  datatype EventRow = EventRow(key: string, baseKey: string, time: Option<int>, silence: Silence, valid: bool)

  /** An acknowledgement of the former aggregate instance covers events up to its time. */
  predicate CarriedOver(known: map<string, Instance>, r: EventRow)
  {
    && r.baseKey in known && known[r.baseKey].acknowledgedAt.Some?
    && r.time.Some? && 0 < r.time.value <= known[r.baseKey].acknowledgedAt.value
  }

  /** The row as which a new event is evaluated. */
  function AsRow(r: EventRow): Row
  {
    Row(r.key, 1.0, true, r.silence, true)
  }

  function EventStep(p: Pass, seen: set<string>, r: EventRow, c: Context): (q: (Pass, set<string>))
    requires StoreValid(p.known)
    ensures StoreValid(q.0.known)
  {
    if p.failed then (p, seen)
    else if !r.valid then (p.(failed := true), seen)
    else if r.key in seen then (p, seen)
    else if r.key in p.known then (p, seen + {r.key})
    else if CarriedOver(p.known, r) then
      (p.(created := p.created[r.key := FRESH.(status := Resolved, resolvedAt := Some(c.now), lastEvaluatedAt := c.now,
                                               acknowledgedAt := p.known[r.baseKey].acknowledgedAt)]),
       seen + {r.key})
    else (AdvanceKey(p, AsRow(r), c), seen + {r.key})
  }

  function EventRows(p: Pass, rows: seq<EventRow>, c: Context): (q: (Pass, set<string>))
    requires StoreValid(p.known)
    ensures StoreValid(q.0.known)
  {
    if rows == [] then (p, {})
    else
      var (before, seen) := EventRows(p, rows[..|rows| - 1], c);
      EventStep(before, seen, rows[|rows| - 1], c)
  }

  function EventEvaluation(store: Store, order: seq<string>, rows: seq<EventRow>, c: Context): Pass
    requires StoreValid(store)
  {
    var (p, seen) := EventRows(Begin(store), rows, c);
    if p.failed then p else ResolveMissing(p, order, seen, c)
  }

  // ------------------------------------------------------------ one pass

  /** The instances made so far are new, seen and well formed. */
  ghost predicate CreatedInv(store: Store, created: map<string, Instance>, seen: set<string>)
  {
    forall k :: k in created ==> WellFormed(created[k]) && !created[k].status.Absent? && k !in store && k in seen
  }

  /** Nothing was announced, or a firing once. */
  predicate FiresAtMost(es: seq<Emission>)
  {
    es == [] || (|es| == 1 && es[0].transition.ToFiring?)
  }

  /** What the rows so far may have announced for `key`. */
  ghost predicate AnnouncedInv(store: Store, created: map<string, Instance>, announced: seq<Emission>,
                               seen: set<string>, key: string)
  {
    && FiresAtMost(announced) && (announced != [] ==> key in created)
    && (key in store || key !in seen ==> announced == [])
  }

  /** What the rows so far may have done to `key`. */
  ghost predicate EventInv(store: Store, p: Pass, seen: set<string>, key: string)
  {
    && p.known == store && p.dirty == {}
    && CreatedInv(store, p.created, seen)
    && AnnouncedInv(store, p.created, LogOf(p.log, key), seen, key)
  }

  lemma FiringsOfOne(e: Option<Emission>)
    ensures Firings(Taken(e)) == if IsFiring(e) then 1 else 0
  {
    FiringsAppend([], e);
    assert [] + Taken(e) == Taken(e);
  }

  /** The first evaluation of a new event: it is stored, and notifies only if it fires. */
  lemma {:induction false} NewEvent(p: Pass, r: EventRow, c: Context)
    requires StoreValid(p.known) && !p.failed && r.key !in p.known
    ensures var o, p' := Advance(FRESH, 1.0, true, r.silence, c), AdvanceKey(p, AsRow(r), c);
      && p'.known == p.known && p'.dirty == p.dirty && p'.failed == o.failed
      && p'.created == (if o.failed then p.created else p.created[r.key := o.instance])
      && p'.log == p.log + Logged(r.key, o.emission)
      && WellFormed(o.instance) && !o.instance.status.Absent?
  {
    assert Lookup(p.known, r.key) == FRESH;
    var o := Advance(FRESH, 1.0, true, r.silence, c);
    assert o.instance.status != FRESH.status;
    assert !Same(FRESH, o.instance);
  }

  lemma {:induction false} NewEventOutcome(silence: Silence, c: Context)
    ensures var o := Advance(FRESH, 1.0, true, silence, c);
      && (o.failed ==> o.emission.None?)
      && (silence.Audible? ==> !o.failed)
      && (o.instance.status.Firing? <==> c.pendingFor <= 0)
      && FiresAtMost(Taken(o.emission))
      && (o.emission.Some? <==> silence.Audible? && c.pendingFor <= 0)
  {
  }

  /** Storing one new event, whatever its evaluation came to. */
  lemma {:induction false} StoreNewEvent(store: Store, p: Pass, p': Pass, seen: set<string>, k: string, o: Outcome,
                                         key: string)
    requires EventInv(store, p, seen, key) && k !in seen && k !in store
    requires p'.known == p.known && p'.dirty == p.dirty && p'.log == p.log + Logged(k, o.emission)
    requires p'.created == (if o.failed then p.created else p.created[k := o.instance])
    requires WellFormed(o.instance) && !o.instance.status.Absent? && (o.failed ==> o.emission.None?)
    requires FiresAtMost(Taken(o.emission))
    ensures EventInv(store, p', seen + {k}, key)
  {
    LogOfAppend(p.log, k, o.emission, key);
    assert k == key ==> LogOf(p'.log, key) == Taken(o.emission);
    assert k != key ==> LogOf(p'.log, key) == LogOf(p.log, key);
    assert CreatedInv(store, p'.created, seen + {k});
  }

  lemma {:induction false} AdvanceNewEvent(store: Store, p: Pass, seen: set<string>, r: EventRow, c: Context,
                                           key: string)
    requires StoreValid(store) && EventInv(store, p, seen, key)
    requires !p.failed && r.valid && r.key !in seen && r.key !in p.known
    ensures EventInv(store, AdvanceKey(p, AsRow(r), c), seen + {r.key}, key)
  {
    NewEvent(p, r, c);
    NewEventOutcome(r.silence, c);
    StoreNewEvent(store, p, AdvanceKey(p, AsRow(r), c), seen, r.key, Advance(FRESH, 1.0, true, r.silence, c), key);
  }

  lemma {:induction false} EventStepKeeps(store: Store, p: Pass, seen: set<string>, r: EventRow, c: Context,
                                          key: string)
    requires StoreValid(store) && EventInv(store, p, seen, key)
    ensures EventInv(store, EventStep(p, seen, r, c).0, EventStep(p, seen, r, c).1, key)
  {
    if !p.failed && r.valid && r.key !in seen && r.key !in p.known && !CarriedOver(p.known, r) {
      AdvanceNewEvent(store, p, seen, r, c, key);
    }
  }

  lemma {:induction false} EventRowsKeep(store: Store, rows: seq<EventRow>, c: Context, key: string)
    requires StoreValid(store)
    ensures var (p, seen) := EventRows(Begin(store), rows, c); EventInv(store, p, seen, key)
  {
    if rows != [] {
      EventRowsKeep(store, rows[..|rows| - 1], c, key);
      var (p, seen) := EventRows(Begin(store), rows[..|rows| - 1], c);
      EventStepKeeps(store, p, seen, rows[|rows| - 1], c, key);
    }
  }

  lemma {:induction false} FiringsOfAtMost(es: seq<Emission>)
    requires FiresAtMost(es)
    ensures Firings(es) == |es|
  {
    if es != [] {
      FiringsOfOne(Some(es[0]));
      assert es == Taken(Some(es[0]));
    }
  }

  ghost predicate Names(rows: seq<EventRow>, key: string)
  {
    exists k :: 0 <= k < |rows| && rows[k].key == key
  }

  /** In a pass that succeeds, exactly the events of its rows are seen. */
  lemma {:induction false} SeenExactly(store: Store, rows: seq<EventRow>, c: Context, key: string)
    requires StoreValid(store) && !EventRows(Begin(store), rows, c).0.failed
    ensures key in EventRows(Begin(store), rows, c).1 <==> Names(rows, key)
  {
    if rows != [] {
      var before, r := rows[..|rows| - 1], rows[|rows| - 1];
      SeenExactly(store, before, c, key);
      assert Names(rows, key) <==> Names(before, key) || r.key == key by {
        assert forall k :: 0 <= k < |before| ==> before[k] == rows[k];
        assert rows[|before|] == r;
      }
    }
  }

  /** One pass: a stored event is left as it is, silently, or resolved with an
      announcement of just that, which in a pass that succeeds happens exactly to those
      that are not reported any more; a new one is announced at most once, as firing, and
      is stored if it was. */
  lemma {:induction false} EventPass(store: Store, order: seq<string>, rows: seq<EventRow>, c: Context, key: string)
    requires StoreValid(store)
    ensures var p := EventEvaluation(store, order, rows, c);
      var es, j := LogOf(p.log, key), Lookup(Flush(store, p), key);
      if key in store
      then
        && key in Flush(store, p)
        && if es == [] then Same(j, store[key])
           else |es| == 1 && es[0].transition.ToResolved? && !store[key].status.Resolved? && j.status.Resolved?
      else FiresAtMost(es) && (es != [] ==> key in Flush(store, p))
    ensures var p := EventEvaluation(store, order, rows, c);
      !p.failed && key in store ==>
        (LogOf(p.log, key) != [] <==> !store[key].status.Resolved? && key in order && !Names(rows, key))
  {
    EventRowsKeep(store, rows, c, key);
    var (p, seen) := EventRows(Begin(store), rows, c);
    if !p.failed {
      SeenExactly(store, rows, c, key);
    }
    FlushedAt(store, p, key);
    FlushKeepsKeys(store, EventEvaluation(store, order, rows, c));
    if p.failed {
    } else if key in store && key !in seen {
      MissingShows(store, p, order, seen, c, key);
    } else {
      MissingSkips(store, p, order, seen, c, key);
      MissingKeepsCreated(p, order, seen, c);
    }
  }

  /** How often a pass announces an event as firing. */
  lemma {:induction false} EventFirings(store: Store, order: seq<string>, rows: seq<EventRow>, c: Context,
                                        key: string)
    requires StoreValid(store)
    ensures var p := EventEvaluation(store, order, rows, c); var n := Firings(LogOf(p.log, key));
      n <= 1 && (n == 1 ==> key !in store && key in Flush(store, p))
  {
    var es := LogOf(EventEvaluation(store, order, rows, c).log, key);
    EventPass(store, order, rows, c, key);
    if FiresAtMost(es) {
      FiringsOfAtMost(es);
    } else {
      FiringsOfOne(Some(es[0]));
      assert es == Taken(Some(es[0]));
    }
  }

  lemma FlushKeepsKeys(store: Store, p: Pass)
    ensures store.Keys <= Flush(store, p).Keys && p.created.Keys <= Flush(store, p).Keys
  {
  }

  lemma {:induction false} EventPassValid(store: Store, order: seq<string>, rows: seq<EventRow>, c: Context)
    requires StoreValid(store)
    ensures StoreValid(Flush(store, EventEvaluation(store, order, rows, c)))
  {
    EventRowsKeep(store, rows, c, "");
    var (p, seen) := EventRows(Begin(store), rows, c);
    MissingKeepsCreated(p, order, seen, c);
    FlushValid(store, EventEvaluation(store, order, rows, c));
  }

  // ------------------------------------------------------------ all passes

  /** `kept` says that the write buffer reached the store; an error there is ignored,
      after the pass has sent its notifications. */
  datatype Round =
    | Reported(order: seq<string>, rows: seq<EventRow>, c: Context, kept: bool)
    | Acknowledged(key: string, at: int)
    | Withdrawn(key: string)

  predicate Kept(round: Round)
  {
    round.Reported? ==> round.kept
  }

  ghost function After(store: Store, round: Round): (s: Store)
    requires StoreValid(store)
    ensures StoreValid(s)
  {
    match round
    case Reported(order, rows, c, kept) =>
      EventPassValid(store, order, rows, c);
      if kept then Flush(store, EventEvaluation(store, order, rows, c)) else store
    case Acknowledged(key, at) => Acked(store, key, Acknowledge(at))
    case Withdrawn(key) => Acked(store, key, Unacknowledge)
  }

  /** The history starts from any store: the rule may have been an aggregate one before. */
  ghost function StoreAfter(start: Store, rounds: seq<Round>): (store: Store)
    requires StoreValid(start)
    ensures StoreValid(store)
  {
    if rounds == [] then start else After(StoreAfter(start, rounds[..|rounds| - 1]), rounds[|rounds| - 1])
  }

  /** How often a round announces the event as firing. */
  ghost function FiringsIn(store: Store, round: Round, key: string): nat
    requires StoreValid(store)
  {
    if round.Reported? then Firings(LogOf(EventEvaluation(store, round.order, round.rows, round.c).log, key)) else 0
  }

  ghost function FiringsAt(start: Store, rounds: seq<Round>, k: nat, key: string): nat
    requires StoreValid(start) && k < |rounds|
  {
    FiringsIn(StoreAfter(start, rounds[..k]), rounds[k], key)
  }

  ghost function TotalFirings(start: Store, rounds: seq<Round>, n: nat, key: string): nat
    requires StoreValid(start) && n <= |rounds|
  {
    if n == 0 then 0 else TotalFirings(start, rounds, n - 1, key) + FiringsAt(start, rounds, n - 1, key)
  }

  /** The announcements of passes whose writes were lost. */
  ghost function LostFirings(start: Store, rounds: seq<Round>, n: nat, key: string): nat
    requires StoreValid(start) && n <= |rounds|
  {
    if n == 0 then 0
    else
      LostFirings(start, rounds, n - 1, key)
      + if Kept(rounds[n - 1]) then 0 else FiringsAt(start, rounds, n - 1, key)
  }

  lemma {:induction false} NoneLost(start: Store, rounds: seq<Round>, n: nat, key: string)
    requires StoreValid(start) && n <= |rounds| && forall k :: 0 <= k < n ==> Kept(rounds[k])
    ensures LostFirings(start, rounds, n, key) == 0
  {
    if n > 0 {
      NoneLost(start, rounds, n - 1, key);
    }
  }

  /** One round: an event is announced only while it is unknown, is known from then on if
      the writes are kept, and once resolved stays so. */
  lemma {:induction false} RoundAt(store: Store, round: Round, key: string)
    requires StoreValid(store)
    ensures var n := FiringsIn(store, round, key);
      && n <= 1 && (n == 1 ==> key !in store && (Kept(round) ==> key in After(store, round)))
    ensures key in store ==>
      && key in After(store, round)
      && (store[key].status.Resolved? ==> After(store, round)[key].status.Resolved?)
  {
    match round
    case Reported(order, rows, c, _) =>
      EventFirings(store, order, rows, c, key);
      EventPass(store, order, rows, c, key);
    case Acknowledged(k, at) =>
    case Withdrawn(k) =>
  }

  lemma {:induction false} StoreSnoc(start: Store, rounds: seq<Round>, k: nat)
    requires StoreValid(start) && k < |rounds|
    ensures StoreAfter(start, rounds[..k + 1]) == After(StoreAfter(start, rounds[..k]), rounds[k])
  {
    assert rounds[..k + 1][..k] == rounds[..k];
  }

  /** From any store, whatever is replayed and acknowledged, and in whatever order: an
      event is announced as firing at most once by the passes that keep their writes, and
      only if it was unknown at the start; from then on it stays known. All further
      announcements are by earlier passes that lost their writes. */
  lemma {:induction false} AnnouncedAtMostOnce(start: Store, rounds: seq<Round>, n: nat, key: string)
    requires StoreValid(start) && n <= |rounds|
    ensures TotalFirings(start, rounds, n, key) <= 1 + LostFirings(start, rounds, n, key)
    ensures TotalFirings(start, rounds, n, key) > LostFirings(start, rounds, n, key) ==>
      key in StoreAfter(start, rounds[..n])
    ensures key in start ==> TotalFirings(start, rounds, n, key) == 0
    ensures (forall k :: 0 <= k < n ==> Kept(rounds[k])) ==> TotalFirings(start, rounds, n, key) <= 1
  {
    if n > 0 {
      AnnouncedAtMostOnce(start, rounds, n - 1, key);
      RoundAt(StoreAfter(start, rounds[..n - 1]), rounds[n - 1], key);
      StoreSnoc(start, rounds, n - 1);
      if key in start {
        KnownStays(start, rounds, 0, n - 1, key);
      }
    }
    if forall k :: 0 <= k < n ==> Kept(rounds[k]) {
      NoneLost(start, rounds, n, key);
    }
  }

  lemma {:induction false} KnownStays(start: Store, rounds: seq<Round>, a: nat, b: nat, key: string)
    requires StoreValid(start) && a <= b <= |rounds| && key in StoreAfter(start, rounds[..a])
    ensures key in StoreAfter(start, rounds[..b])
  {
    if a < b {
      KnownStays(start, rounds, a, b - 1, key);
      RoundAt(StoreAfter(start, rounds[..b - 1]), rounds[b - 1], key);
      StoreSnoc(start, rounds, b - 1);
    }
  }

  /** If two passes announce the same event, the first of them lost its writes. */
  lemma {:induction false} AnnouncedTwiceOnlyIfLost(start: Store, rounds: seq<Round>, a: nat, b: nat, key: string)
    requires StoreValid(start) && a < b < |rounds|
    requires FiringsAt(start, rounds, a, key) == 1 && FiringsAt(start, rounds, b, key) == 1
    ensures !Kept(rounds[a])
  {
    RoundAt(StoreAfter(start, rounds[..a]), rounds[a], key);
    RoundAt(StoreAfter(start, rounds[..b]), rounds[b], key);
    StoreSnoc(start, rounds, a);
    if Kept(rounds[a]) {
      KnownStays(start, rounds, a + 1, b, key);
    }
  }

  /** And losing them is enough: a pass that announced an event announces it again when
      it is replayed, from whatever store, if and only if its writes were lost. */
  lemma {:induction false} ReplayAnnouncesExactlyWhen(store: Store, pass: Round, key: string)
    requires StoreValid(store) && pass.Reported? && FiringsIn(store, pass, key) == 1
    ensures FiringsIn(After(store, pass), pass, key) == 1 <==> !pass.kept
  {
    RoundAt(store, pass, key);
    RoundAt(After(store, pass), pass, key);
  }

  /** A resolved event never re-arms, and is never announced again. */
  lemma {:induction false} ResolvedForGood(start: Store, rounds: seq<Round>, a: nat, b: nat, key: string)
    requires StoreValid(start) && a <= b <= |rounds| && key in StoreAfter(start, rounds[..a])
    requires StoreAfter(start, rounds[..a])[key].status.Resolved?
    ensures key in StoreAfter(start, rounds[..b]) && StoreAfter(start, rounds[..b])[key].status.Resolved?
    ensures b < |rounds| ==> FiringsAt(start, rounds, b, key) == 0
  {
    if a < b {
      ResolvedForGood(start, rounds, a, b - 1, key);
      RoundAt(StoreAfter(start, rounds[..b - 1]), rounds[b - 1], key);
      StoreSnoc(start, rounds, b - 1);
    }
    if b < |rounds| {
      RoundAt(StoreAfter(start, rounds[..b]), rounds[b], key);
    }
  }

  // ------------------------------------------------------------ carried-over acknowledgements

  /** The rows of the event are all covered by an acknowledgement from before. */
  ghost predicate Covered(store: Store, rows: seq<EventRow>, key: string)
  {
    forall k :: 0 <= k < |rows| && rows[k].key == key ==> CarriedOver(store, rows[k])
  }

  lemma {:induction false} CoveredStep(store: Store, p: Pass, seen: set<string>, r: EventRow, c: Context,
                                       key: string)
    requires StoreValid(store) && EventInv(store, p, seen, key) && key !in store
    requires r.key == key ==> CarriedOver(store, r)
    requires key in seen ==> key in p.created && p.created[key].status.Resolved? && LogOf(p.log, key) == []
    ensures var (q, s) := EventStep(p, seen, r, c);
      && (key in s <==> key in seen || (!p.failed && r.valid && r.key == key))
      && (key in s ==> key in q.created && q.created[key].status.Resolved? && LogOf(q.log, key) == [])
  {
    if !p.failed && r.valid && r.key !in seen && r.key !in p.known && !CarriedOver(p.known, r) {
      RecordOther(store, p, r.key, Advance(FRESH, 1.0, true, r.silence, c), key);
      NewEvent(p, r, c);
    }
  }

  lemma {:induction false} CoveredRows(store: Store, rows: seq<EventRow>, c: Context, key: string)
    requires StoreValid(store) && key !in store && Covered(store, rows, key)
    ensures var (p, seen) := EventRows(Begin(store), rows, c);
      && (key in seen ==> key in p.created && p.created[key].status.Resolved? && LogOf(p.log, key) == [])
      && (!p.failed ==> (key in seen <==> exists k :: 0 <= k < |rows| && rows[k].key == key))
  {
    if rows != [] {
      var before, r := rows[..|rows| - 1], rows[|rows| - 1];
      CoveredRows(store, before, c, key);
      EventRowsKeep(store, before, c, key);
      var (p, seen) := EventRows(Begin(store), before, c);
      CoveredStep(store, p, seen, r, c, key);
      assert forall k :: 0 <= k < |before| ==> before[k] == rows[k];
    }
  }

  /** When an acknowledged aggregate rule has become an event rule, an event that the
      acknowledgement covers is stored as resolved without being announced by the first
      pass that reports it, succeeds and keeps its writes, and is never announced later. */
  lemma {:induction false} CarriedOverStaysSilent(start: Store, rounds: seq<Round>, a: nat, b: nat, key: string,
                                                  row: nat)
    requires StoreValid(start) && a < b <= |rounds| && rounds[a].Reported? && rounds[a].kept
    requires key !in StoreAfter(start, rounds[..a]) && Covered(StoreAfter(start, rounds[..a]), rounds[a].rows, key)
    requires row < |rounds[a].rows| && rounds[a].rows[row].key == key
    requires !EventRows(Begin(StoreAfter(start, rounds[..a])), rounds[a].rows, rounds[a].c).0.failed
    ensures FiringsAt(start, rounds, a, key) == 0
    ensures key in StoreAfter(start, rounds[..b]) && StoreAfter(start, rounds[..b])[key].status.Resolved?
    ensures b < |rounds| ==> FiringsAt(start, rounds, b, key) == 0
  {
    CoveredPass(StoreAfter(start, rounds[..a]), rounds[a], key, row);
    StoreSnoc(start, rounds, a);
    ResolvedForGood(start, rounds, a + 1, b, key);
  }

  lemma {:induction false} CoveredPass(store: Store, round: Round, key: string, row: nat)
    requires StoreValid(store) && round.Reported? && round.kept && key !in store && Covered(store, round.rows, key)
    requires row < |round.rows| && round.rows[row].key == key
    requires !EventRows(Begin(store), round.rows, round.c).0.failed
    ensures FiringsIn(store, round, key) == 0
    ensures key in After(store, round) && After(store, round)[key].status.Resolved?
  {
    var (p, seen) := EventRows(Begin(store), round.rows, round.c);
    CoveredRows(store, round.rows, round.c, key);
    EventRowsKeep(store, round.rows, round.c, key);
    MissingSkips(store, p, round.order, seen, round.c, key);
    FlushedAt(store, p, key);
  }

  /** Exactly what becomes of a new event: if an acknowledgement of its base group covers
      its time, it is stored as resolved with that acknowledgement and nothing is announced;
      otherwise it is evaluated as a breach of a new instance. */
  lemma {:induction false} NewEventExactly(store: Store, r: EventRow, c: Context)
    requires StoreValid(store) && r.valid && r.key !in store
    ensures var p := EventRows(Begin(store), [r], c).0; var o := Next(FRESH, Evaluate(1.0, true, r.silence, c));
      var covered := r.baseKey in store && store[r.baseKey].acknowledgedAt.Some? && r.time.Some?
                     && r.time.value > 0 && r.time.value <= store[r.baseKey].acknowledgedAt.value;
      if covered
      then
        && !p.failed && LogOf(p.log, r.key) == []
        && p.created == map[r.key := FRESH.(status := Resolved, resolvedAt := Some(c.now), lastEvaluatedAt := c.now,
                                            acknowledgedAt := store[r.baseKey].acknowledgedAt)]
      else
        && p.failed == o.failed && LogOf(p.log, r.key) == Taken(o.emission)
        && p.created == if o.failed then map[] else map[r.key := o.instance]
  {
    assert [r][..0] == [];
    assert EventRows(Begin(store), [], c) == (Begin(store), {});
    if !CarriedOver(store, r) {
      NewEvent(Begin(store), r, c);
      LogOfAppend([], r.key, Advance(FRESH, 1.0, true, r.silence, c).emission, r.key);
      assert [] + Taken(Advance(FRESH, 1.0, true, r.silence, c).emission)
          == Taken(Advance(FRESH, 1.0, true, r.silence, c).emission);
    }
  }

  /** A new, audible event fires in the pass that first reports it exactly when the rule
      has no pending time; with one it would only become pending, and as a stored event
      it is never evaluated again. The alert API refuses such rules. */
  lemma {:induction false} NewEventFires(store: Store, r: EventRow, c: Context)
    requires StoreValid(store) && r.valid && r.key !in store && !CarriedOver(store, r) && r.silence.Audible?
    ensures var p := EventRows(Begin(store), [r], c).0;
      && !p.failed && r.key in p.created
      && (p.created[r.key].status.Firing? <==> c.pendingFor <= 0)
      && (Firings(LogOf(p.log, r.key)) == 1 <==> c.pendingFor <= 0)
  {
    var o := Advance(FRESH, 1.0, true, r.silence, c);
    assert [r][..0] == [];
    assert EventRows(Begin(store), [r], c).0 == AdvanceKey(Begin(store), AsRow(r), c);
    NewEvent(Begin(store), r, c);
    NewEventOutcome(r.silence, c);
    LogOfAppend([], r.key, o.emission, r.key);
    FiringsOfOne(o.emission);
    assert LogOf([], r.key) + Taken(o.emission) == Taken(o.emission);
  }
}
