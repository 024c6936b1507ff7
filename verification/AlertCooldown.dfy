/** The global cooldown of notifications over whole histories of a rule: it survives a
    pass exactly if the store comes to remember what the pass has sent. */
module AlertCooldown {
  import opened AlertGroups
  import opened AlertHistory
  import opened AlertLife
  import opened AlertPass
  import opened AlertRepeatedRows
  import opened Wrappers

  // ------------------------------------------------------------ what one pass sends

  lemma {:induction false} SendsConcat(es: seq<Emission>, fs: seq<Emission>, channel: Channel)
    ensures Sends(es + fs, channel) == Sends(es, channel) + Sends(fs, channel)
  {
    if fs == [] {
      assert es + fs == es;
    } else {
      SendsConcat(es, fs[..|fs| - 1], channel);
      assert (es + fs)[..|es + fs| - 1] == es + fs[..|fs| - 1];
    }
  }

  /** Steps at one time, under one global cooldown, send only if the instance allows it,
      send once, and are remembered. */
  lemma {:induction false} WithinSends(i: Instance, steps: seq<Step>, c: Context, channel: Channel)
    requires WellFormed(i) && Within(steps, c)
    ensures var n, last := Sends(Says(i, steps), channel), LastOn(Life(i, steps), channel);
      if n == 0 then last == LastOn(i, channel)
      else
        && last == Some(c.now) && NotificationDue(LastOn(i, channel), c.globalCooldown, c.now, false)
        && (c.globalCooldown > 0 ==> n == 1)
  {
    if steps != [] {
      var before, step := steps[..|steps| - 1], steps[|steps| - 1];
      WithinSends(i, before, c, channel);
      StepSends(Life(i, before), step, channel);
      SendsAppend(Says(i, before), Next(Life(i, before), step).emission, channel);
    }
  }

  lemma {:induction false} TakenWithin(store: Store, rows: seq<Row>, c: Context, key: string)
    requires StoreValid(store)
    ensures Within(StepsTaken(store, rows, c, key), c)
  {
    StepsForContext(rows[..Good(store, rows, c)], key, c);
  }

  /** How often a round sends on the channel about the group. */
  ghost function SendsIn(store: Store, round: Round, key: string, channel: Channel): nat
    requires StoreValid(store)
  {
    Sends(Announced(store, round, key), channel)
  }

  /** The evaluations that a pass makes of the group. */
  ghost function Heard(store: Store, round: Round, key: string): seq<Step>
    requires StoreValid(store) && round.Evaluated?
  {
    StepsFor(round.rows[..Good(store, round.rows, round.c)], key, round.c)
  }

  predicate OnlyLastSends(steps: seq<Step>, channel: Channel)
  {
    && steps != [] && SendsAtOnce(steps[|steps| - 1], channel)
    && SendingSteps(steps[..|steps| - 1], channel) == 0
  }

  /** The pass keeps its writes, and its group was stored before or only the last of its
      rows sends. */
  ghost predicate Keeps(store: Store, round: Round, key: string, channel: Channel)
    requires StoreValid(store) && round.Evaluated?
  {
    round.kept && (key in store || OnlyLastSends(Heard(store, round, key), channel))
  }

  lemma {:induction false} StoredSends(store: Store, round: Round, key: string, channel: Channel)
    requires StoreValid(store) && round.Evaluated? && Loads(store, round) && key in store
    ensures var n, i, c := SendsIn(store, round, key, channel), store[key], round.c;
      var last := LastOn(Lookup(After(store, round), key), channel);
      if n == 0 || !round.kept then last == LastOn(i, channel)
      else last == Some(c.now)
    ensures var n, i, c := SendsIn(store, round, key, channel), store[key], round.c;
      n > 0 ==> && NotificationDue(LastOn(i, channel), c.globalCooldown, c.now, false)
                && (c.globalCooldown > 0 ==> n == 1)
  {
    var steps := StepsIn(store, round, key);
    RoundMoves(store, round, key);
    TakenWithin(store, round.rows, round.c, key);
    WithinSends(store[key], steps, round.c, channel);
    assert [] + Says(store[key], steps) == Says(store[key], steps);
  }

  /** A pass sends only if what the store remembers allows it. */
  lemma {:induction false} SendsOnlyWhenDue(store: Store, round: Round, key: string, channel: Channel)
    requires StoreValid(store) && round.Evaluated? && Loads(store, round) && SendsIn(store, round, key, channel) > 0
    ensures NotificationDue(LastOn(Lookup(store, key), channel), round.c.globalCooldown, round.c.now, false)
  {
    if key in store {
      StoredSends(store, round, key, channel);
    }
  }

  /** A pass that keeps what it sends is remembered for it, and under a cooldown sends it
      once. */
  lemma {:induction false} KeptIsRemembered(store: Store, round: Round, key: string, channel: Channel)
    requires StoreValid(store) && round.Evaluated? && Loads(store, round) && SendsIn(store, round, key, channel) > 0
    requires Keeps(store, round, key, channel)
    ensures LastOn(Lookup(After(store, round), key), channel) == Some(round.c.now)
    ensures round.c.globalCooldown > 0 ==> SendsIn(store, round, key, channel) == 1
  {
    if key in store {
      StoredSends(store, round, key, channel);
    } else {
      NewGroupFiresOncePerRow(store, round.order, round.rows, round.c, key, channel);
    }
  }

  /** Otherwise it has sent twice, or what the store remembers allows it to send again. */
  lemma {:induction false} NotKeptIsForgotten(store: Store, round: Round, key: string, channel: Channel)
    requires StoreValid(store) && round.Evaluated? && Loads(store, round) && SendsIn(store, round, key, channel) > 0
    requires !Keeps(store, round, key, channel)
    ensures SendsIn(store, round, key, channel) > 1
      || NotificationDue(LastOn(Lookup(After(store, round), key), channel), round.c.globalCooldown, round.c.now, false)
  {
    if round.kept {
      NewGroupFiresOncePerRow(store, round.order, round.rows, round.c, key, channel);
    } else {
      SendsOnlyWhenDue(store, round, key, channel);
    }
  }

  // ------------------------------------------------------------ a further pass

  lemma {:induction false} Listed(s: set<string>) returns (order: seq<string>)
    ensures forall k :: k in s <==> k in order
    decreases |s|
  {
    if s == {} {
      order := [];
    } else {
      var x :| x in s;
      order := Listed(s - {x});
      order := order + [x];
    }
  }

  lemma {:induction false} OneAudibleRow(store: Store, r: Row, c: Context)
    requires StoreValid(store) && r.numeric && r.silence.Audible?
    ensures StepsFor([r], r.key, c) == [StepOf(r, c)] && StepsTaken(store, [r], c, r.key) == [StepOf(r, c)]
    ensures Forgotten(store, [r], c, r.key) == []
  {
    assert [r][..0] == [] && [r][..1] == [r];
    assert Good(store, [], c) == 0;
    assert !RowFails(store, [], r, c);
    assert StepsFor([r], r.key, c) == [] + [StepOf(r, c)];
    OneRowOneStep(store, [r], c, r.key);
  }

  /** A row that changes the state of the instance sends wherever that is due. */
  lemma {:induction false} ChangeSends(i: Instance, r: Row, c: Context, channel: Channel)
    requires WellFormed(i) && r.silence.Audible? && (r.breached <==> i.status.Absent? || i.status.Resolved?)
    requires Reaches(c, channel) && c.pendingFor <= 0 && c.cooldown <= 0
    requires NotificationDue(LastOn(i, channel), c.globalCooldown, c.now, false)
    ensures SentOn(Next(i, StepOf(r, c)).emission, channel)
  {
  }

  lemma {:induction false} OneRowSends(store: Store, round: Round, r: Row, channel: Channel)
    requires StoreValid(store) && round.Evaluated? && round.rows == [r] && Loads(store, round) && r.numeric
    requires r.silence.Audible? && Reaches(round.c, channel) && round.c.pendingFor <= 0 && round.c.cooldown <= 0
    requires var i := Lookup(store, r.key); r.breached <==> i.status.Absent? || i.status.Resolved?
    requires NotificationDue(LastOn(Lookup(store, r.key), channel), round.c.globalCooldown, round.c.now, false)
    ensures SendsIn(store, round, r.key, channel) == 1
  {
    var i := Lookup(store, r.key);
    OneAudibleRow(store, r, round.c);
    RoundMoves(store, round, r.key);
    LifeOne(i, StepOf(r, round.c));
    ChangeSends(i, r, round.c, channel);
    SendsAppend([], Next(i, StepOf(r, round.c)).emission, channel);
  }

  /** In every state, under every global cooldown, there is a pass with one row of the
      group that sends if what the store remembers allows it. */
  lemma {:induction false} Another(store: Store, key: string, channel: Channel, now: int, cooldown: int)
    returns (next: Round)
    requires StoreValid(store)
    ensures next.Evaluated? && Loads(store, next) && OneRow(next, key)
    ensures next.c.now == now && next.c.globalCooldown == cooldown
    ensures NotificationDue(LastOn(Lookup(store, key), channel), cooldown, now, false) ==>
      SendsIn(store, next, key, channel) > 0
  {
    var i := Lookup(store, key);
    var r := Row(key, 0.0, i.status.Absent? || i.status.Resolved?, Audible, true);
    var order := Listed(store.Keys);
    next := Evaluated(order, [r], Context(now, 0, 0, 0, cooldown, false, true, true, true), true);
    OneAudibleRow(store, r, next.c);
    if NotificationDue(LastOn(i, channel), cooldown, now, false) {
      OneRowSends(store, next, r, channel);
    }
  }

  /** `next` is a pass within the cooldown after `round`, with at most one row of the group. */
  ghost predicate Soon(store: Store, round: Round, next: Round, key: string)
    requires round.Evaluated?
  {
    && next.Evaluated? && Loads(store, next) && OneRow(next, key)
    && round.c.now <= next.c.now < round.c.now + next.c.globalCooldown
  }

  /** Under a global cooldown, a pass that sends about a group on a channel sends once,
      and so that no pass within the cooldown sends again, if and only if it keeps its
      writes and the group was stored before or only the last of its rows sends. */
  lemma {:induction false} CooldownSurvivesExactlyWhen(store: Store, round: Round, key: string, channel: Channel)
    requires StoreValid(store) && round.Evaluated? && Loads(store, round) && round.c.globalCooldown > 0
    requires SendsIn(store, round, key, channel) > 0
    ensures (&& SendsIn(store, round, key, channel) == 1
             && forall next :: Soon(After(store, round), round, next, key) ==>
                  SendsIn(After(store, round), next, key, channel) == 0)
      <==> Keeps(store, round, key, channel)
  {
    var after := After(store, round);
    if Keeps(store, round, key, channel) {
      KeptIsRemembered(store, round, key, channel);
      forall next | Soon(after, round, next, key)
        ensures SendsIn(after, next, key, channel) == 0
      {
        if SendsIn(after, next, key, channel) > 0 {
          SendsOnlyWhenDue(after, next, key, channel);
        }
      }
    } else {
      NotKeptIsForgotten(store, round, key, channel);
      var next := Another(after, key, channel, round.c.now, round.c.globalCooldown);
      assert Soon(after, round, next, key);
    }
  }

  // ------------------------------------------------------------ whole histories

  /** The clock of the passes does not go back. */
  ghost predicate RoundsOrdered(rounds: seq<Round>)
  {
    forall i, j :: 0 <= i < j < |rounds| && rounds[i].Evaluated? && rounds[j].Evaluated? ==>
      rounds[i].c.now <= rounds[j].c.now
  }

  ghost predicate Remembers(store: Store, key: string, channel: Channel, since: int)
  {
    LastOn(Lookup(store, key), channel).Some? && LastOn(Lookup(store, key), channel).value >= since
  }

  lemma {:induction false} RoundRemembers(store: Store, round: Round, key: string, channel: Channel, since: int)
    requires StoreValid(store) && Loads(store, round) && Remembers(store, key, channel, since)
    requires round.Evaluated? ==> round.c.now >= since
    ensures Remembers(After(store, round), key, channel, since)
  {
    if round.Evaluated? {
      StoredSends(store, round, key, channel);
    }
  }

  ghost function SendsAt(start: Store, rounds: seq<Round>, k: nat, key: string, channel: Channel): nat
    requires StoreValid(start) && k < |rounds|
  {
    SendsIn(StoreAfter(start, rounds[..k]), rounds[k], key, channel)
  }

  /** A notification stays remembered, whatever passes and acknowledgements follow. */
  lemma {:induction false} MemoryStays(start: Store, rounds: seq<Round>, a: nat, b: nat, key: string,
                                       channel: Channel, since: int)
    requires StoreValid(start) && Regular(start, rounds) && a <= b <= |rounds|
    requires Remembers(StoreAfter(start, rounds[..a]), key, channel, since)
    requires forall k :: a <= k < b && rounds[k].Evaluated? ==> rounds[k].c.now >= since
    ensures Remembers(StoreAfter(start, rounds[..b]), key, channel, since)
  {
    if a < b {
      MemoryStays(start, rounds, a, b - 1, key, channel, since);
      RegularPrefix(start, rounds, b - 1);
      RoundRemembers(StoreAfter(start, rounds[..b - 1]), rounds[b - 1], key, channel, since);
      StoreSnoc(start, rounds, b - 1);
    }
  }

  ghost predicate KeepsAt(start: Store, rounds: seq<Round>, k: nat, key: string, channel: Channel)
    requires StoreValid(start) && k < |rounds| && rounds[k].Evaluated?
  {
    Keeps(StoreAfter(start, rounds[..k]), rounds[k], key, channel)
  }

  lemma {:induction false} OnlyPassesSend(start: Store, rounds: seq<Round>, k: nat, key: string, channel: Channel)
    requires StoreValid(start) && k < |rounds| && SendsAt(start, rounds, k, key, channel) > 0
    ensures rounds[k].Evaluated?
  {
  }

  /** What pass `a` has sent and kept is remembered when round `b` begins. */
  lemma {:induction false} KeptStaysRemembered(start: Store, rounds: seq<Round>, a: nat, b: nat, key: string,
                                               channel: Channel)
    requires StoreValid(start) && Regular(start, rounds) && RoundsOrdered(rounds) && a < b < |rounds|
    requires SendsAt(start, rounds, a, key, channel) > 0
    requires rounds[a].Evaluated? && KeepsAt(start, rounds, a, key, channel)
    ensures Remembers(StoreAfter(start, rounds[..b]), key, channel, rounds[a].c.now)
  {
    RegularPrefix(start, rounds, a);
    KeptIsRemembered(StoreAfter(start, rounds[..a]), rounds[a], key, channel);
    StoreSnoc(start, rounds, a);
    MemoryStays(start, rounds, a + 1, b, key, channel, rounds[a].c.now);
  }

  /** Over every history, a notification on a channel comes at least the global cooldown
      after every earlier one about the group that was sent by a pass that keeps it. */
  lemma {:induction false} CooldownOverPasses(start: Store, rounds: seq<Round>, a: nat, b: nat, key: string,
                                              channel: Channel)
    requires StoreValid(start) && Regular(start, rounds) && RoundsOrdered(rounds) && a < b < |rounds|
    requires SendsAt(start, rounds, a, key, channel) > 0 && SendsAt(start, rounds, b, key, channel) > 0
    requires rounds[a].Evaluated? && KeepsAt(start, rounds, a, key, channel)
    ensures rounds[b].Evaluated?
    ensures rounds[b].c.now - rounds[a].c.now >= rounds[b].c.globalCooldown
  {
    OnlyPassesSend(start, rounds, b, key, channel);
    KeptStaysRemembered(start, rounds, a, b, key, channel);
    RegularPrefix(start, rounds, b);
    SendsOnlyWhenDue(StoreAfter(start, rounds[..b]), rounds[b], key, channel);
  }

  // ------------------------------------------------------------ exactly when it holds

  /** Under a cooldown no pass sends twice about the group on the channel, and no two
      passes send within the cooldown. */
  ghost predicate Apart(start: Store, rounds: seq<Round>, key: string, channel: Channel)
    requires StoreValid(start)
  {
    && (forall k :: 0 <= k < |rounds| && rounds[k].Evaluated? && rounds[k].c.globalCooldown > 0 ==>
          SendsAt(start, rounds, k, key, channel) <= 1)
    && (forall a, b :: 0 <= a < b < |rounds| && rounds[a].Evaluated? && rounds[b].Evaluated?
                       && SendsAt(start, rounds, a, key, channel) > 0 && SendsAt(start, rounds, b, key, channel) > 0
          ==> rounds[b].c.now - rounds[a].c.now >= rounds[b].c.globalCooldown)
  }

  /** Every pass that sends is one that keeps what it sends. */
  ghost predicate AllKeep(start: Store, rounds: seq<Round>, key: string, channel: Channel)
    requires StoreValid(start)
  {
    forall k :: 0 <= k < |rounds| && rounds[k].Evaluated? && SendsAt(start, rounds, k, key, channel) > 0 ==>
      KeepsAt(start, rounds, k, key, channel)
  }

  /** Every pass is made under a global cooldown. */
  ghost predicate Cooled(rounds: seq<Round>)
  {
    forall k :: 0 <= k < |rounds| && rounds[k].Evaluated? ==> rounds[k].c.globalCooldown > 0
  }

  /** `all` is the history up to some round, followed by a pass with at most one row of the
      group. */
  ghost predicate Branches(start: Store, rounds: seq<Round>, all: seq<Round>, key: string)
    requires StoreValid(start)
  {
    && all != [] && all[..|all| - 1] <= rounds && all[|all| - 1].Evaluated? && OneRow(all[|all| - 1], key)
    && Regular(start, all) && RoundsOrdered(all) && Cooled(all)
  }

  lemma {:induction false} SendingAtMost(steps: seq<Step>, channel: Channel)
    ensures SendingSteps(steps, channel) <= |steps|
  {
    if steps != [] {
      SendingAtMost(steps[..|steps| - 1], channel);
    }
  }

  lemma {:induction false} OneRowSendsOnce(store: Store, round: Round, key: string, channel: Channel)
    requires StoreValid(store) && round.Evaluated? && Loads(store, round) && OneRow(round, key)
    requires round.c.globalCooldown > 0
    ensures SendsIn(store, round, key, channel) <= 1
  {
    if key in store {
      StoredSends(store, round, key, channel);
    } else {
      NewGroupFiresOncePerRow(store, round.order, round.rows, round.c, key, channel);
      SendingAtMost(Heard(store, round, key), channel);
      StepsForPrefix(round.rows, Good(store, round.rows, round.c), key, round.c);
    }
  }

  lemma {:induction false} PrefixSends(start: Store, rounds: seq<Round>, all: seq<Round>, k: nat, key: string,
                                       channel: Channel)
    requires StoreValid(start) && k < |rounds| && k < |all| && rounds[..k + 1] == all[..k + 1]
    ensures rounds[k] == all[k] && rounds[..k] == all[..k]
    ensures SendsAt(start, rounds, k, key, channel) == SendsAt(start, all, k, key, channel)
  {
    assert rounds[..k + 1][k] == rounds[k] && all[..k + 1][k] == all[k];
    assert rounds[..k] == rounds[..k + 1][..k] == all[..k + 1][..k] == all[..k];
  }

  lemma {:induction false} KeepingIsApart(start: Store, rounds: seq<Round>, all: seq<Round>, key: string,
                                          channel: Channel)
    requires StoreValid(start) && AllKeep(start, rounds, key, channel) && Branches(start, rounds, all, key)
    ensures Apart(start, all, key, channel)
  {
    var last := |all| - 1;
    forall k | 0 <= k < last
      ensures rounds[k] == all[k] && rounds[..k] == all[..k]
      ensures SendsAt(start, rounds, k, key, channel) == SendsAt(start, all, k, key, channel)
    {
      assert all[..last][..k + 1] == all[..k + 1] && rounds[..last][..k + 1] == rounds[..k + 1];
      PrefixSends(start, rounds, all, k, key, channel);
    }
    forall k | 0 <= k < |all| && all[k].Evaluated?
      ensures SendsAt(start, all, k, key, channel) <= 1
    {
      RegularPrefix(start, all, k);
      if k == last {
        OneRowSendsOnce(StoreAfter(start, all[..k]), all[k], key, channel);
      } else if SendsAt(start, all, k, key, channel) > 0 {
        assert KeepsAt(start, rounds, k, key, channel);
        KeptIsRemembered(StoreAfter(start, all[..k]), all[k], key, channel);
      }
    }
    forall a, b | 0 <= a < b < |all| && all[a].Evaluated? && all[b].Evaluated?
                  && SendsAt(start, all, a, key, channel) > 0 && SendsAt(start, all, b, key, channel) > 0
      ensures all[b].c.now - all[a].c.now >= all[b].c.globalCooldown
    {
      assert KeepsAt(start, rounds, a, key, channel);
      CooldownOverPasses(start, all, a, b, key, channel);
    }
  }

  /** A history followed by one more pass. */
  lemma {:induction false} BranchAt(start: Store, rounds: seq<Round>, k: nat, next: Round, key: string,
                                    channel: Channel)
    requires StoreValid(start) && Regular(start, rounds) && RoundsOrdered(rounds) && Cooled(rounds) && k < |rounds|
    requires rounds[k].Evaluated? && next.Evaluated? && OneRow(next, key)
    requires Loads(StoreAfter(start, rounds[..k + 1]), next)
    requires next.c.now == rounds[k].c.now && next.c.globalCooldown == rounds[k].c.globalCooldown
    ensures var all := rounds[..k + 1] + [next];
      && Branches(start, rounds, all, key)
      && SendsAt(start, all, k, key, channel) == SendsAt(start, rounds, k, key, channel)
      && SendsAt(start, all, k + 1, key, channel)
         == SendsIn(After(StoreAfter(start, rounds[..k]), rounds[k]), next, key, channel)
  {
    var all := rounds[..k + 1] + [next];
    assert all[..k + 1] == rounds[..k + 1] && all[|all| - 1] == next;
    StoreSnoc(start, rounds, k);
    RegularPrefix(start, rounds, k + 1);
    PrefixSends(start, rounds, all, k, key, channel);
    assert forall m :: 0 <= m <= k ==> all[m] == rounds[m];
  }

  lemma {:induction false} ForgettingBranches(start: Store, rounds: seq<Round>, k: nat, key: string,
                                              channel: Channel)
    returns (all: seq<Round>)
    requires StoreValid(start) && Regular(start, rounds) && RoundsOrdered(rounds) && Cooled(rounds)
    requires k < |rounds| && rounds[k].Evaluated? && SendsAt(start, rounds, k, key, channel) > 0
    requires !KeepsAt(start, rounds, k, key, channel)
    ensures Branches(start, rounds, all, key) && !Apart(start, all, key, channel)
  {
    var before, round := StoreAfter(start, rounds[..k]), rounds[k];
    RegularPrefix(start, rounds, k);
    StoreSnoc(start, rounds, k);
    NotKeptIsForgotten(before, round, key, channel);
    var next := Another(After(before, round), key, channel, round.c.now, round.c.globalCooldown);
    all := rounds[..k + 1] + [next];
    BranchAt(start, rounds, k, next, key, channel);
    assert all[k] == round && all[k + 1] == next;
  }

  /** Exactly when the global cooldown holds: under one, a history, up to any of its
      rounds and with any further pass with one row of the group, sends about the group on
      the channel at least the cooldown apart, if and only if every pass of it that sends
      keeps its writes and either finds the group stored or sends by its last row only. */
  lemma {:induction false} CooldownHoldsExactlyWhen(start: Store, rounds: seq<Round>, key: string, channel: Channel)
    requires StoreValid(start) && Regular(start, rounds) && RoundsOrdered(rounds) && Cooled(rounds)
    ensures (forall all :: Branches(start, rounds, all, key) ==> Apart(start, all, key, channel))
      <==> AllKeep(start, rounds, key, channel)
  {
    if AllKeep(start, rounds, key, channel) {
      forall all | Branches(start, rounds, all, key)
        ensures Apart(start, all, key, channel)
      {
        KeepingIsApart(start, rounds, all, key, channel);
      }
    } else {
      var k :| 0 <= k < |rounds| && rounds[k].Evaluated? && SendsAt(start, rounds, k, key, channel) > 0
               && !KeepsAt(start, rounds, k, key, channel);
      var all := ForgettingBranches(start, rounds, k, key, channel);
    }
  }

  // ------------------------------------------------------------ a second row

  lemma {:induction false} TwoFreshRows(r0: Row, r1: Row, c: Context)
    requires r0.key == r1.key && r0.numeric && r1.numeric && r0.silence.Audible? && r1.silence.Audible?
    ensures var rows := [r0, r1];
      Good(map[], rows, c) == 2 && StepsFor(rows, r0.key, c) == [StepOf(r0, c), StepOf(r1, c)]
  {
    var rows := [r0, r1];
    assert rows[..1] == [r0];
    OneAudibleRow(map[], r0, c);
    assert [r0][..0] == [] && Good(map[], [], c) == 0 && !RowFails(map[], [], r0, c);
    assert Good(map[], [r0], c) == 1;
    assert !RowFails(map[], [r0], r1, c);
    StepsForLast(rows, r0.key, c);
  }

  /** What the first pass of a rule makes of a group. */
  lemma {:induction false} FirstPassStores(round: Round, key: string)
    requires round.Evaluated? && round.order == [] && round.kept
    ensures var mine, store := Heard(map[], round, key), After(map[], round);
      Same(Lookup(store, key), if mine == [] then FRESH else Next(FRESH, mine[|mine| - 1]).instance)
  {
    NewGroupStartsAgain(map[], [], round.rows, round.c, key);
  }

  lemma {:induction false} OtherKeyUnheard(r0: Row, r1: Row, c: Context, key: string)
    requires r0.key == r1.key != key
    ensures StepsFor([r0, r1], key, c) == []
  {
    assert [r0, r1][..1] == [r0] && [r0][..0] == [];
    StepsForLast([r0, r1], key, c);
    StepsForLast([r0], key, c);
  }

  /** What it makes of two such rows: the second is stored. */
  lemma {:induction false} SecondIsStored(r0: Row, r1: Row, c: Context, key: string)
    requires r0.key == r1.key && r0.numeric && r1.numeric && r0.silence.Audible? && r1.silence.Audible?
    requires !r1.breached
    ensures var store := After(map[], Evaluated([], [r0, r1], c, true));
      if key != r0.key then key !in store
      else key in store && store[key].status.Resolved? && store[key].lastBrowserAt.None?
  {
    var round := Evaluated([], [r0, r1], c, true);
    TwoFreshRows(r0, r1, c);
    assert [r0, r1][..2] == [r0, r1];
    FirstPassStores(round, key);
    if key != r0.key {
      OtherKeyUnheard(r0, r1, c, key);
    } else {
      assert Heard(map[], round, key) == [StepOf(r0, c), StepOf(r1, c)];
    }
  }

  lemma {:induction false} TwoRowsSendOnce(r0: Row, r1: Row, c: Context)
    requires r0.key == r1.key && r0.numeric && r1.numeric && r0.silence.Audible? && r1.silence.Audible?
    requires r0.breached && !r1.breached && c.pendingFor <= 0 && Reaches(c, Browser)
    ensures SendsIn(map[], Evaluated([], [r0, r1], c, true), r0.key, Browser) == 1
  {
    var rows, s0, s1 := [r0, r1], StepOf(r0, c), StepOf(r1, c);
    TwoFreshRows(r0, r1, c);
    assert rows[..2] == rows;
    NewGroupFiresOncePerRow(map[], [], rows, c, r0.key, Browser);
    assert [s0, s1][..1] == [s0] && [s0][..0] == [];
    assert SendingSteps([s0], Browser) == 1;
  }

  lemma {:induction false} RegularTwo(first: Round, second: Round)
    requires Loads(map[], first) && Loads(After(map[], first), second)
    ensures Regular(map[], [first, second])
  {
    assert [first, second][..1] == [first] && [first][..0] == [];
    assert Regular(map[], []) && Regular(map[], [first]);
  }

  /** A new group with two rows, of which the first is announced and the second is not
      breached: the second is stored as a resolved instance that has never sent, and a
      breached row fifteen seconds later is announced again under a cooldown of a minute,
      although both passes keep their writes. */
  lemma {:induction false} SecondRowForgetsSend(now: int)
    ensures var c := Context(now, 0, 0, 0, 60_000_000_000, false, true, false, false);
      var r := Row("all", 7.0, true, Audible, true);
      var first := Evaluated([], [r, Row("all", 1.0, false, Audible, true)], c, true);
      var second := Evaluated(["all"], [r], c.(now := now + 15_000_000_000), true);
      && Regular(map[], [first, second])
      && SendsIn(map[], first, "all", Browser) == 1 && SendsIn(After(map[], first), second, "all", Browser) == 1
  {
    var c := Context(now, 0, 0, 0, 60_000_000_000, false, true, false, false);
    var r0, r1 := Row("all", 7.0, true, Audible, true), Row("all", 1.0, false, Audible, true);
    var first := Evaluated([], [r0, r1], c, true);
    var second := Evaluated(["all"], [r0], c.(now := now + 15_000_000_000), true);
    var after := After(map[], first);
    forall key
      ensures key in after <==> key in second.order
    {
      SecondIsStored(r0, r1, c, key);
    }
    SecondIsStored(r0, r1, c, "all");
    TwoRowsSendOnce(r0, r1, c);
    OneRowSends(after, second, r0, Browser);
    RegularTwo(first, second);
  }
}
