/** Whole histories of a rule: passes, whose writes may be lost, and acknowledgements. */
module AlertHistory {
  import opened AlertGroups
  import opened AlertLife
  import opened AlertPass
  import opened Wrappers

  /** `order` lists the groups stored when the pass loads them. `kept` says that the
      write buffer reached the store; an error there is ignored, after the pass has sent
      its notifications. */
  datatype Round =
    | Evaluated(order: seq<string>, rows: seq<Row>, c: Context, kept: bool)
    | Acknowledged(key: string, at: int)
    | Withdrawn(key: string)

  // ------------------------------------------------------------ the store

  ghost function After(store: Store, round: Round): (s: Store)
    requires StoreValid(store)
    ensures StoreValid(s)
  {
    match round
    case Evaluated(order, rows, c, kept) =>
      EvaluationValid(store, order, rows, c);
      if kept then Flush(store, Evaluation(store, order, rows, c)) else store
    case Acknowledged(key, at) => Acked(store, key, Acknowledge(at))
    case Withdrawn(key) => Acked(store, key, Unacknowledge)
  }

  /** The history starts from any store: a rule may have been of another kind before. */
  ghost function StoreAfter(start: Store, rounds: seq<Round>): (store: Store)
    requires StoreValid(start)
    ensures StoreValid(store)
  {
    if rounds == [] then start else After(StoreAfter(start, rounds[..|rounds| - 1]), rounds[|rounds| - 1])
  }

  lemma {:induction false} StoreSnoc(start: Store, rounds: seq<Round>, k: nat)
    requires StoreValid(start) && k < |rounds|
    ensures StoreAfter(start, rounds[..k + 1]) == After(StoreAfter(start, rounds[..k]), rounds[k])
  {
    assert rounds[..k + 1][..k] == rounds[..k];
  }

  /** A pass loads what is stored. */
  ghost predicate Loads(store: Store, round: Round)
  {
    round.Evaluated? ==> forall key :: key in store <==> key in round.order
  }

  ghost predicate Regular(start: Store, rounds: seq<Round>)
    requires StoreValid(start)
  {
    rounds != [] ==>
      var before, last := rounds[..|rounds| - 1], rounds[|rounds| - 1];
      Regular(start, before) && Loads(StoreAfter(start, before), last)
  }

  // ------------------------------------------------------------ the life of a group

  /** The steps that a round means for a group. */
  ghost function StepsIn(store: Store, round: Round, key: string): seq<Step>
    requires StoreValid(store)
  {
    match round
    case Evaluated(_, rows, c, _) => StepsTaken(store, rows, c, key)
    case Acknowledged(k, at) => if k == key then [Acknowledge(at)] else []
    case Withdrawn(k) => if k == key then [Unacknowledge] else []
  }

  predicate Kept(round: Round)
  {
    round.Evaluated? ==> round.kept
  }

  /** The steps that a group has taken for good. */
  ghost function LifeOf(start: Store, rounds: seq<Round>, key: string): seq<Step>
    requires StoreValid(start)
  {
    if rounds == [] then []
    else
      var before, last := rounds[..|rounds| - 1], rounds[|rounds| - 1];
      LifeOf(start, before, key) + if Kept(last) then StepsIn(StoreAfter(start, before), last, key) else []
  }

  /** What a round announces about a group. */
  ghost function Announced(store: Store, round: Round, key: string): seq<Emission>
    requires StoreValid(store)
  {
    if round.Evaluated? then LogOf(Evaluation(store, round.order, round.rows, round.c).log, key) else []
  }

  /** What of it no step of the group's life says: the rows of a new group before the last. */
  ghost function Unremembered(store: Store, round: Round, key: string): seq<Emission>
    requires StoreValid(store)
  {
    if round.Evaluated? then Forgotten(store, round.rows, round.c, key) else []
  }

  /** Two instances that differ only in the time of their last evaluation live alike. */
  lemma {:induction false} SameNext(i: Instance, j: Instance, step: Step)
    requires WellFormed(i) && WellFormed(j) && Same(i, j)
    ensures Same(Next(i, step).instance, Next(j, step).instance)
    ensures Next(i, step).emission == Next(j, step).emission
  {
  }

  lemma {:induction false} SameLife(i: Instance, j: Instance, steps: seq<Step>)
    requires WellFormed(i) && WellFormed(j) && Same(i, j)
    ensures Same(Life(i, steps), Life(j, steps)) && Says(i, steps) == Says(j, steps)
  {
    if steps != [] {
      var before := steps[..|steps| - 1];
      SameLife(i, j, before);
      SameNext(Life(i, before), Life(j, before), steps[|steps| - 1]);
    }
  }

  lemma {:induction false} LifeConcat(i: Instance, s: seq<Step>, t: seq<Step>)
    requires WellFormed(i)
    ensures Life(i, s + t) == Life(Life(i, s), t)
  {
    if t == [] {
      assert s + t == s;
    } else {
      var before := t[..|t| - 1];
      LifeConcat(i, s, before);
      assert s + t == (s + before) + [t[|t| - 1]];
      LifeSnoc(i, s + before, t[|t| - 1]);
    }
  }

  lemma {:induction false} AckMoves(store: Store, k: string, ack: Step, key: string)
    requires StoreValid(store) && (ack.Acknowledge? || ack.Unacknowledge?)
    ensures var steps := if k == key then [ack] else [];
      && Lookup(Acked(store, k, ack), key) == Life(Lookup(store, key), steps)
      && Says(Lookup(store, key), steps) == []
  {
    if k == key {
      LifeOne(Lookup(store, key), ack);
    }
  }

  /** What a round does to a group if its writes are kept, and what it announces. */
  lemma {:induction false} RoundMoves(store: Store, round: Round, key: string)
    requires StoreValid(store) && Loads(store, round)
    ensures var i, steps := Lookup(store, key), StepsIn(store, round, key);
      && Announced(store, round, key) == Unremembered(store, round, key) + Says(i, steps)
      && Same(Lookup(After(store, round), key), if Kept(round) then Life(i, steps) else i)
  {
    match round
    case Evaluated(order, rows, c, kept) => PassTakesSteps(store, order, rows, c, key);
    case Acknowledged(k, at) => AckMoves(store, k, Acknowledge(at), key);
    case Withdrawn(k) => AckMoves(store, k, Unacknowledge, key);
  }

  /** One round, seen from a group whose life so far is `steps`. */
  lemma {:induction false} RoundFollowsLife(store: Store, round: Round, key: string, i: Instance, steps: seq<Step>)
    requires StoreValid(store) && Loads(store, round) && WellFormed(i) && Same(Lookup(store, key), Life(i, steps))
    ensures var mine := StepsIn(store, round, key);
      && Announced(store, round, key) == Unremembered(store, round, key) + Says(Life(i, steps), mine)
      && Same(Lookup(After(store, round), key), Life(i, steps + if Kept(round) then mine else []))
  {
    var mine := StepsIn(store, round, key);
    RoundMoves(store, round, key);
    SameLife(Lookup(store, key), Life(i, steps), mine);
    LifeConcat(i, steps, mine);
    assert steps + [] == steps;
  }

  lemma {:induction false} RegularPrefix(start: Store, rounds: seq<Round>, n: nat)
    requires StoreValid(start) && Regular(start, rounds) && n <= |rounds|
    ensures Regular(start, rounds[..n])
    ensures n < |rounds| ==> Loads(StoreAfter(start, rounds[..n]), rounds[n])
  {
    if n == |rounds| {
      assert rounds[..n] == rounds;
    } else if n < |rounds| - 1 {
      RegularPrefix(start, rounds[..|rounds| - 1], n);
      assert rounds[..|rounds| - 1][..n] == rounds[..n];
    }
  }

  /** Over every history the store holds of each group, but for the time of its last
      evaluation, what the steps of its life make of it: the evaluator, with its loaded
      copies, write buffer, repeated rows, failing passes and lost writes, refines one
      life per group. */
  lemma {:induction false} StoreFollowsLife(start: Store, rounds: seq<Round>, key: string)
    requires StoreValid(start) && Regular(start, rounds)
    ensures Same(Lookup(StoreAfter(start, rounds), key), Life(Lookup(start, key), LifeOf(start, rounds, key)))
  {
    if rounds != [] {
      var before, last := rounds[..|rounds| - 1], rounds[|rounds| - 1];
      StoreFollowsLife(start, before, key);
      RoundFollowsLife(StoreAfter(start, before), last, key, Lookup(start, key), LifeOf(start, before, key));
    }
  }

  /** The instance that the life of a group has come to before round `k`. */
  ghost function Stage(start: Store, rounds: seq<Round>, k: nat, key: string): (i: Instance)
    requires StoreValid(start) && k <= |rounds|
    ensures WellFormed(i)
  {
    Life(Lookup(start, key), LifeOf(start, rounds[..k], key))
  }

  /** The steps that round `k` means for the group. */
  ghost function StepsAt(start: Store, rounds: seq<Round>, k: nat, key: string): seq<Step>
    requires StoreValid(start) && k < |rounds|
  {
    StepsIn(StoreAfter(start, rounds[..k]), rounds[k], key)
  }

  ghost function AnnouncedAt(start: Store, rounds: seq<Round>, k: nat, key: string): seq<Emission>
    requires StoreValid(start) && k < |rounds|
  {
    Announced(StoreAfter(start, rounds[..k]), rounds[k], key)
  }

  /** And each pass, whether it keeps its writes or not, announces exactly what the steps
      that the group takes in it would, after what only the forgotten rows of a new group
      say. */
  lemma {:induction false} PassAnnouncesAsLife(start: Store, rounds: seq<Round>, k: nat, key: string)
    requires StoreValid(start) && Regular(start, rounds) && k < |rounds|
    ensures AnnouncedAt(start, rounds, k, key)
      == Unremembered(StoreAfter(start, rounds[..k]), rounds[k], key)
         + Says(Stage(start, rounds, k, key), StepsAt(start, rounds, k, key))
  {
    RegularPrefix(start, rounds, k);
    StoreFollowsLife(start, rounds[..k], key);
    RoundFollowsLife(StoreAfter(start, rounds[..k]), rounds[k], key, Lookup(start, key),
                     LifeOf(start, rounds[..k], key));
  }

  // ------------------------------------------------------------ episodes, over passes

  ghost predicate AnnouncesFiring(es: seq<Emission>)
  {
    exists z :: 0 <= z < |es| && es[z].transition.ToFiring?
  }

  /** An announcement of a firing is the emission of some step. */
  lemma {:induction false} FiringStep(i: Instance, steps: seq<Step>) returns (k: nat)
    requires WellFormed(i) && AnnouncesFiring(Says(i, steps))
    ensures k < |steps| && EmitsFiring(i, steps, k)
  {
    k := |steps| - 1;
    var before := steps[..k];
    var e := Next(Life(i, before), steps[k]).emission;
    if !(e.Some? && e.value.transition.ToFiring?) {
      assert AnnouncesFiring(Says(i, before)) by {
        var z :| 0 <= z < |Says(i, steps)| && Says(i, steps)[z].transition.ToFiring?;
        assert z < |Says(i, before)| && Says(i, before)[z] == Says(i, steps)[z];
      }
      k := FiringStep(i, before);
      assert before[..k] == steps[..k];
    }
  }

  /** A step of a part of a life emits as in the whole. */
  lemma {:induction false} EmittedWithin(i: Instance, s: seq<Step>, t: seq<Step>, u: seq<Step>, k: nat)
    requires WellFormed(i) && k < |t|
    ensures Emitted(i, s + t + u, |s| + k) == Emitted(Life(i, s), t, k)
  {
    assert (s + t + u)[..|s| + k] == s + t[..k];
    LifeConcat(i, s, t[..k]);
  }

  lemma NextStaysPresent(i: Instance, step: Step)
    requires WellFormed(i) && !i.status.Absent?
    ensures !Next(i, step).instance.status.Absent?
  {
  }

  lemma {:induction false} NeverAbsentAgain(i: Instance, s: seq<Step>, t: seq<Step>)
    requires WellFormed(i) && !Life(i, s).status.Absent?
    ensures !Life(i, s + t).status.Absent?
  {
    if t == [] {
      assert s + t == s;
    } else {
      var before := t[..|t| - 1];
      NeverAbsentAgain(i, s, before);
      NextStaysPresent(Life(i, s + before), t[|t| - 1]);
      assert s + t == (s + before) + [t[|t| - 1]];
      LifeSnoc(i, s + before, t[|t| - 1]);
    }
  }

  lemma {:induction false} LifePrefix(start: Store, rounds: seq<Round>, m: nat, n: nat, key: string)
    requires StoreValid(start) && m <= n <= |rounds|
    ensures LifeOf(start, rounds[..m], key) <= LifeOf(start, rounds[..n], key)
  {
    if m < n {
      LifePrefix(start, rounds, m, n - 1, key);
      assert rounds[..n][..n - 1] == rounds[..n - 1];
    }
  }

  /** The steps of a round that kept its writes are part of the life ever after. */
  lemma {:induction false} KeptStepsStay(start: Store, rounds: seq<Round>, a: nat, b: nat, key: string)
    returns (rest: seq<Step>)
    requires StoreValid(start) && a < b <= |rounds| && Kept(rounds[a])
    ensures LifeOf(start, rounds[..b], key)
      == LifeOf(start, rounds[..a], key) + StepsAt(start, rounds, a, key) + rest
  {
    LifePrefix(start, rounds, a + 1, b, key);
    assert rounds[..a + 1][..a] == rounds[..a];
    rest := LifeOf(start, rounds[..b], key)[|LifeOf(start, rounds[..a + 1], key)|..];
  }

  lemma {:induction false} FiredIsPresent(i: Instance, steps: seq<Step>, k: nat)
    requires WellFormed(i) && k < |steps| && EmitsFiring(i, steps, k)
    ensures !Life(i, steps).status.Absent?
  {
    var upTo := steps[..k] + [steps[k]];
    FiringEmission(Life(i, steps[..k]), steps[k]);
    LifeSnoc(i, steps[..k], steps[k]);
    NeverAbsentAgain(i, upTo, steps[k + 1..]);
    assert steps == upTo + steps[k + 1..];
  }

  /** A group whose life has fired is stored, so that no later round forgets any of it. */
  lemma {:induction false} FiredIsStored(start: Store, rounds: seq<Round>, b: nat, key: string, life: seq<Step>,
                                         k: nat)
    requires StoreValid(start) && Regular(start, rounds) && b < |rounds| && life == LifeOf(start, rounds[..b], key)
    requires k < |life| && EmitsFiring(Lookup(start, key), life, k)
    ensures Unremembered(StoreAfter(start, rounds[..b]), rounds[b], key) == []
  {
    FiredIsPresent(Lookup(start, key), life, k);
    RegularPrefix(start, rounds, b);
    StoreFollowsLife(start, rounds[..b], key);
  }

  /** A life that announces a firing in `t` is firing at some stage of it, and was not
      right before. */
  lemma {:induction false} FiringStage(i: Instance, s: seq<Step>, t: seq<Step>, u: seq<Step>) returns (k: nat)
    requires WellFormed(i) && AnnouncesFiring(Says(Life(i, s), t))
    ensures k < |t| && !Life(i, (s + t + u)[..|s| + k]).status.Firing?
    ensures EmitsFiring(i, s + t + u, |s| + k)
  {
    k := FiringStep(Life(i, s), t);
    EmittedWithin(i, s, t, u, k);
    FiresBetween(i, s + t + u, |s| + k);
  }

  /** The first firing: its life is firing at stage `p`, and the group is stored by then,
      so that no later round forgets any of it. */
  lemma {:induction false} FirstFires(start: Store, rounds: seq<Round>, a: nat, b: nat, key: string) returns (p: nat)
    requires StoreValid(start) && Regular(start, rounds) && a < b < |rounds| && Kept(rounds[a])
    requires AnnouncesFiring(Says(Stage(start, rounds, a, key), StepsAt(start, rounds, a, key)))
    ensures Unremembered(StoreAfter(start, rounds[..b]), rounds[b], key) == []
    ensures var life := LifeOf(start, rounds[..b], key);
      |LifeOf(start, rounds[..a], key)| <= p < |life| && Life(Lookup(start, key), life[..p + 1]).status.Firing?
  {
    var i, la, sa := Lookup(start, key), LifeOf(start, rounds[..a], key), StepsAt(start, rounds, a, key);
    var rest := KeptStepsStay(start, rounds, a, b, key);
    var k := FiringStage(i, la, sa, rest);
    p := |la| + k;
    FiresBetween(i, la + sa + rest, p);
    FiredIsStored(start, rounds, b, key, la + sa + rest, p);
  }

  lemma {:induction false} NextFires(i: Instance, s: seq<Step>, t: seq<Step>) returns (q: nat)
    requires WellFormed(i) && AnnouncesFiring(Says(Life(i, s), t))
    ensures |s| <= q < |s + t| && !Life(i, (s + t)[..q]).status.Firing?
  {
    var k := FiringStage(i, s, t, []);
    assert s + t + [] == s + t;
    q := |s| + k;
  }

  /** Over every history, between a firing announced by a pass that kept its writes, as a
      step of the group's life, and the next one announced by whichever pass, the group
      was resolved: its life was so at some stage after that step and before the step that
      fired next. */
  lemma {:induction false} ResolvedInBetween(start: Store, rounds: seq<Round>, a: nat, b: nat, key: string)
    returns (stage: nat)
    requires StoreValid(start) && Regular(start, rounds) && a < b < |rounds| && Kept(rounds[a])
    requires AnnouncesFiring(Says(Stage(start, rounds, a, key), StepsAt(start, rounds, a, key)))
    requires AnnouncesFiring(AnnouncedAt(start, rounds, b, key))
    ensures var all := LifeOf(start, rounds[..b], key) + StepsAt(start, rounds, b, key);
      && |LifeOf(start, rounds[..a], key)| < stage < |all|
      && Life(Lookup(start, key), all[..stage]).status.Resolved?
  {
    var i, lb, sb := Lookup(start, key), LifeOf(start, rounds[..b], key), StepsAt(start, rounds, b, key);
    var p := FirstFires(start, rounds, a, b, key);
    PassAnnouncesAsLife(start, rounds, b, key);
    assert [] + Says(Life(i, lb), sb) == Says(Life(i, lb), sb);
    var q := NextFires(i, lb, sb);
    assert (lb + sb)[..p + 1] == lb[..p + 1];
    FiringAgain(i, lb + sb, p, q);
    stage :| p < stage <= q && Life(i, (lb + sb)[..stage]).status.Resolved?;
  }

  /** The query of the round names the group at most once. */
  ghost predicate OneRow(round: Round, key: string)
  {
    round.Evaluated? ==> |StepsFor(round.rows, key, round.c)| <= 1
  }

  lemma {:induction false} OneRowIn(store: Store, round: Round, key: string)
    requires StoreValid(store) && OneRow(round, key)
    ensures |StepsIn(store, round, key)| <= 1 && Unremembered(store, round, key) == []
  {
    if round.Evaluated? {
      OneRowOneStep(store, round.rows, round.c, key);
    }
  }

  /** A stage that a life reaches in rounds of at most one step is its state after one of
      them. */
  lemma {:induction false} StageReached(start: Store, rounds: seq<Round>, a: nat, b: nat, stage: nat, key: string)
    returns (m: nat)
    requires StoreValid(start) && a <= b <= |rounds| && forall k :: a <= k < b ==> OneRow(rounds[k], key)
    requires |LifeOf(start, rounds[..a], key)| < stage <= |LifeOf(start, rounds[..b], key)|
    ensures a < m <= b && LifeOf(start, rounds[..m], key) == LifeOf(start, rounds[..b], key)[..stage]
  {
    var life := LifeOf(start, rounds[..b], key);
    if stage == |life| {
      m := b;
      assert life[..stage] == life;
    } else {
      var last := b - 1;
      assert rounds[..b][..last] == rounds[..last];
      OneRowIn(StoreAfter(start, rounds[..last]), rounds[last], key);
      m := StageReached(start, rounds, a, last, stage, key);
      LifePrefix(start, rounds, last, b, key);
      assert LifeOf(start, rounds[..last], key)[..stage] == life[..stage];
    }
  }

  /** If the passes from the one to the other name the group at most once, the store
      itself shows the group resolved in between. */
  lemma {:induction false} OneAnnouncementPerEpisode(start: Store, rounds: seq<Round>, a: nat, b: nat, key: string)
    requires StoreValid(start) && Regular(start, rounds) && a < b < |rounds| && Kept(rounds[a])
    requires forall k :: a <= k <= b ==> OneRow(rounds[k], key)
    requires AnnouncesFiring(AnnouncedAt(start, rounds, a, key))
    requires AnnouncesFiring(AnnouncedAt(start, rounds, b, key))
    ensures exists m :: a < m <= b && Lookup(StoreAfter(start, rounds[..m]), key).status.Resolved?
  {
    OneRowIn(StoreAfter(start, rounds[..a]), rounds[a], key);
    OneRowIn(StoreAfter(start, rounds[..b]), rounds[b], key);
    PassAnnouncesAsLife(start, rounds, a, key);
    var said := Says(Stage(start, rounds, a, key), StepsAt(start, rounds, a, key));
    assert [] + said == said;
    var stage := ResolvedInBetween(start, rounds, a, b, key);
    var lb, sb := LifeOf(start, rounds[..b], key), StepsAt(start, rounds, b, key);
    var m := StageReached(start, rounds, a, b, stage, key);
    assert (lb + sb)[..stage] == lb[..stage];
    RegularPrefix(start, rounds, m);
    StoreFollowsLife(start, rounds[..m], key);
  }

  /** What the store calls firing, of a group that is not there at the start, has been
      breached, without a break, by every step of its episode, and for its rule's pending
      time before it fired. */
  lemma {:induction false} StoreFiresOnlyAfterPendingTime(start: Store, rounds: seq<Round>, key: string)
    returns (j: nat, f: nat)
    requires StoreValid(start) && Regular(start, rounds) && key !in start
    requires Lookup(StoreAfter(start, rounds), key).status.Firing?
    ensures FiringFrom(LifeOf(start, rounds, key), Life(FRESH, LifeOf(start, rounds, key)), j, f)
  {
    var life := LifeOf(start, rounds, key);
    StoreFollowsLife(start, rounds, key);
    FiresOnlyAfterPendingTime(life);
    j, f :| FiringFrom(life, Life(FRESH, life), j, f);
  }

  // ------------------------------------------------------------ lost writes

  ghost predicate AnnouncesChange(es: seq<Emission>)
  {
    exists z :: 0 <= z < |es| && !es[z].transition.Repeat?
  }

  /** A step that has just fired or resolved a group does not do so again. */
  lemma {:induction false} ChangesOnce(i: Instance, step: Step, j: Instance, next: Step)
    requires WellFormed(i) && WellFormed(j) && Same(j, Next(i, step).instance)
    requires Next(i, step).emission.Some? && !Next(i, step).emission.value.transition.Repeat?
    ensures Next(j, next).emission != Next(i, step).emission
  {
    FiringEmission(i, step);
    FiringEmission(j, next);
    ResolvedAndRepeatEmissions(i, step);
    ResolvedAndRepeatEmissions(j, next);
  }

  lemma {:induction false} SaysChangeOnce(i: Instance, s: seq<Step>, j: Instance, t: seq<Step>)
    requires WellFormed(i) && WellFormed(j) && |s| <= 1 && |t| <= 1
    requires Same(j, Life(i, s)) && AnnouncesChange(Says(i, s))
    ensures Says(j, t) != Says(i, s)
  {
    assert s == [s[0]];
    LifeOne(i, s[0]);
    if t != [] {
      assert t == [t[0]];
      LifeOne(j, t[0]);
      ChangesOnce(i, s[0], j, t[0]);
    }
  }

  /** That the writes are kept matters, and matters alone: a pass that announced that a
      group, with one row at most, fires or is resolved announces the same again when it
      is replayed if and only if its writes were lost. */
  lemma {:induction false} ReplayAnnouncesExactlyWhen(store: Store, pass: Round, again: Round, key: string)
    requires StoreValid(store) && pass.Evaluated? && again.Evaluated? && again == pass.(order := again.order)
    requires Loads(store, pass) && Loads(After(store, pass), again) && OneRow(pass, key)
    requires AnnouncesChange(Announced(store, pass, key))
    ensures Announced(After(store, pass), again, key) == Announced(store, pass, key) <==> !pass.kept
  {
    var i, j := Lookup(store, key), Lookup(After(store, pass), key);
    var s, t := StepsIn(store, pass, key), StepsIn(After(store, pass), again, key);
    RoundMoves(store, pass, key);
    RoundMoves(After(store, pass), again, key);
    OneRowIn(store, pass, key);
    OneRowIn(After(store, pass), again, key);
    assert [] + Says(i, s) == Says(i, s) && [] + Says(j, t) == Says(j, t);
    if pass.kept {
      SaysChangeOnce(i, s, j, t);
    }
  }
}
