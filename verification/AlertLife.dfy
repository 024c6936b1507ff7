/** The life of one alert instance: pending, firing, resolved, and its notifications. */
module AlertLife {
  import opened Wrappers

  /** `Absent` is an instance that has never been evaluated. */
  datatype Status = Absent | Pending | Firing | Resolved

  datatype Instance = Instance(status: Status, value: real, firstPendingAt: Option<int>, firedAt: Option<int>,
                               resolvedAt: Option<int>, acknowledgedAt: Option<int>,
                               lastBrowserAt: Option<int>, lastPushoverAt: Option<int>, lastEvaluatedAt: int)

  const FRESH := Instance(Absent, 0.0, None, None, None, None, None, None, 0)

  /** The rule's settings and the surroundings of one evaluation. `browser` and
      `pushover` say that the channel is enabled for the rule and configured. */
  datatype Context = Context(now: int, pendingFor: int, cooldown: int, repeatInterval: int, globalCooldown: int,
                             quiet: bool, browser: bool, pushover: bool, pushoverDelivers: bool)

  datatype Transition = ToFiring | Repeat | ToResolved

  /** One emission, with the channels that it was sent on. */
  datatype Emission = Emission(transition: Transition, at: int, browser: bool, pushover: bool)

  datatype Silence = Silenced | Audible | Unknown

  /** What can happen to an instance: an evaluation of its group, the group's absence
      from the results, and an operator's acknowledgement or its withdrawal. */
  datatype Step =
    | Evaluate(value: real, breached: bool, silence: Silence, c: Context)
    | Vanish(c: Context)
    | Acknowledge(at: int)
    | Unacknowledge

  datatype Outcome = Outcome(instance: Instance, emission: Option<Emission>, failed: bool)

  // ------------------------------------------------------------ one step

  predicate NotificationDue(last: Option<int>, cooldown: int, now: int, force: bool)
  {
    force || cooldown <= 0 || last.None? || now - last.value >= cooldown
  }

  /** Sends on the channels that are due; a forced emission ignores the rule's own
      cooldown but never the global one. */
  function Emit(i: Instance, transition: Transition, c: Context, force: bool): (Instance, Emission)
  {
    var cooldown := if c.globalCooldown > 0 then c.globalCooldown else 0;
    var onBrowser := !c.quiet && c.browser
                     && NotificationDue(i.lastBrowserAt, c.cooldown, c.now, force)
                     && NotificationDue(i.lastBrowserAt, cooldown, c.now, false);
    var onPushover := !c.quiet && c.pushover
                      && NotificationDue(i.lastPushoverAt, c.cooldown, c.now, force)
                      && NotificationDue(i.lastPushoverAt, cooldown, c.now, false)
                      && c.pushoverDelivers;
    (i.(lastBrowserAt := if onBrowser then Some(c.now) else i.lastBrowserAt,
        lastPushoverAt := if onPushover then Some(c.now) else i.lastPushoverAt),
     Emission(transition, c.now, onBrowser, onPushover))
  }

  predicate RepeatDue(i: Instance, c: Context)
  {
    && i.acknowledgedAt.None?
    && (|| (c.browser && (i.lastBrowserAt.None? || c.now - i.lastBrowserAt.value >= c.repeatInterval))
        || (c.pushover && (i.lastPushoverAt.None? || c.now - i.lastPushoverAt.value >= c.repeatInterval)))
  }

  ghost predicate WellFormed(i: Instance)
  {
    i.status.Pending? ==> i.firstPendingAt.Some?
  }

  /** Turns pending, if it was at rest, and firing, if it has been pending long enough. */
  function Escalate(i: Instance, c: Context): Instance
    requires WellFormed(i)
  {
    var p := if i.status.Absent? || i.status.Resolved?
             then i.(status := Pending, firstPendingAt := Some(c.now), resolvedAt := None, acknowledgedAt := None)
             else i;
    if p.status.Pending? && (c.pendingFor <= 0 || c.now - p.firstPendingAt.value >= c.pendingFor)
    then p.(status := Firing, firedAt := Some(c.now)) else p
  }

  function Advance(i: Instance, value: real, breached: bool, silence: Silence, c: Context): (o: Outcome)
    requires WellFormed(i)
    ensures WellFormed(o.instance)
  {
    var seen := i.(value := value, lastEvaluatedAt := c.now);
    if !breached then
      var rest := if i.status.Resolved? then seen else seen.(status := Resolved, resolvedAt := Some(c.now));
      if i.status.Absent? || i.status.Resolved? then Outcome(rest, None, false)
      else var (j, e) := Emit(rest, ToResolved, c, true); Outcome(j, Some(e), false)
    else
      var up := Escalate(seen, c);
      if !i.status.Firing? && up.status.Firing? then
        match silence
        case Unknown => Outcome(up, None, true)
        case Silenced => Outcome(up, None, false)
        case Audible => var (j, e) := Emit(up, ToFiring, c, false); Outcome(j, Some(e), false)
      else if i.status.Firing? && up.acknowledgedAt.None? && c.repeatInterval > 0 && RepeatDue(up, c) then
        var (j, e) := Emit(up, Repeat, c, true); Outcome(j, Some(e), false)
      else Outcome(up, None, false)
  }

  /** The group is missing from the results: whatever is not at rest resolves. */
  function Disappear(i: Instance, c: Context): (o: Outcome)
    ensures WellFormed(i) ==> WellFormed(o.instance)
  {
    if i.status.Absent? || i.status.Resolved? then Outcome(i, None, false)
    else
      var resolved := i.(status := Resolved, resolvedAt := Some(c.now), lastEvaluatedAt := c.now);
      var (j, e) := Emit(resolved, ToResolved, c, true);
      Outcome(j, Some(e), false)
  }

  function Next(i: Instance, step: Step): (o: Outcome)
    requires WellFormed(i)
    ensures WellFormed(o.instance)
  {
    match step
    case Evaluate(value, breached, silence, c) =>
      // an evaluation that fails leaves the stored instance as it was
      var o := Advance(i, value, breached, silence, c);
      if o.failed then Outcome(i, None, true) else o
    case Vanish(c) => Disappear(i, c)
    case Acknowledge(at) =>
      Outcome(if (i.status.Pending? || i.status.Firing?) && i.acknowledgedAt.None?
              then i.(acknowledgedAt := Some(at)) else i, None, false)
    case Unacknowledge => Outcome(i.(acknowledgedAt := None), None, false)
  }

  // ------------------------------------------------------------ one step, by channel

  datatype Channel = Browser | Pushover

  function SentOn(e: Option<Emission>, channel: Channel): bool
  {
    e.Some? && if channel.Browser? then e.value.browser else e.value.pushover
  }

  function LastOn(i: Instance, channel: Channel): Option<int>
  {
    if channel.Browser? then i.lastBrowserAt else i.lastPushoverAt
  }

  /** The channel is enabled, not quiet, and delivers. */
  predicate Reaches(c: Context, channel: Channel)
  {
    !c.quiet && if channel.Browser? then c.browser else c.pushover && c.pushoverDelivers
  }

  /** At least `wait` has passed since then, if there is anything to wait for. */
  predicate Elapsed(last: Option<int>, wait: int, now: int)
  {
    last.None? || wait <= 0 || now - last.value >= wait
  }

  /** A repeat is wanted on the channel: it is enabled, and the repeat interval has passed
      since the last notification on it. */
  predicate RepeatWanted(i: Instance, c: Context, channel: Channel)
  {
    && (if channel.Browser? then c.browser else c.pushover)
    && (LastOn(i, channel).None? || c.now - LastOn(i, channel).value >= c.repeatInterval)
  }

  /** An emission is sent on exactly the channels that reach and are past the global
      cooldown; only a firing has to wait for the rule's own cooldown as well. */
  lemma {:induction false} SendsExactlyWhen(i: Instance, step: Step, channel: Channel)
    requires WellFormed(i)
    ensures var e := Next(i, step).emission;
      && (e.Some? ==> (step.Evaluate? || step.Vanish?) && e.value.at == step.c.now)
      && (SentOn(e, channel) <==>
            && e.Some? && Reaches(step.c, channel)
            && Elapsed(LastOn(i, channel), step.c.globalCooldown, step.c.now)
            && (e.value.transition.ToFiring? ==> Elapsed(LastOn(i, channel), step.c.cooldown, step.c.now)))
  {
  }

  // ------------------------------------------------------------ what a step leaves

  /** Neither pending nor firing. */
  predicate AtRest(i: Instance)
  {
    i.status.Absent? || i.status.Resolved?
  }

  /** Only a lookup of the silences can fail, and only when the step makes it fire; then
      nothing is stored. */
  lemma {:induction false} StepFailsExactlyWhen(i: Instance, step: Step)
    requires WellFormed(i)
    ensures Next(i, step).failed <==>
      && step.Evaluate? && step.breached && step.silence.Unknown? && !i.status.Firing?
      && (step.c.pendingFor <= 0
          || (i.status.Pending? && step.c.now - i.firstPendingAt.value >= step.c.pendingFor))
    ensures Next(i, step).failed ==> Next(i, step).instance == i && Next(i, step).emission.None?
  {
  }

  /** The state after a step that does not fail. */
  lemma {:induction false} StatusAfter(i: Instance, step: Step)
    requires WellFormed(i) && !Next(i, step).failed
    ensures var j := Next(i, step).instance;
      match step
      case Evaluate(_, breached, _, c) =>
        if !breached then j.status.Resolved?
        else if i.status.Firing? || c.pendingFor <= 0 then j.status.Firing?
        else if i.status.Pending? && c.now - i.firstPendingAt.value >= c.pendingFor then j.status.Firing?
        else j.status.Pending?
      case Vanish(_) => j.status == if AtRest(i) then i.status else Resolved
      case _ => j.status == i.status
  {
  }

  /** The times that it leaves: when the instance left its rest, fired and was resolved, and
      when it was last looked at; and its last value. */
  lemma {:induction false} TimesAfter(i: Instance, step: Step)
    requires WellFormed(i) && !Next(i, step).failed
    ensures var j := Next(i, step).instance;
      if step.Acknowledge? || step.Unacknowledge?
      then j == i.(acknowledgedAt := j.acknowledgedAt)
      else if step.Vanish? && AtRest(i) then j == i
      else
        && j.value == (if step.Evaluate? then step.value else i.value)
        && j.lastEvaluatedAt == step.c.now
        && j.firstPendingAt == (if AtRest(i) && !AtRest(j) then Some(step.c.now) else i.firstPendingAt)
        && j.firedAt == (if !i.status.Firing? && j.status.Firing? then Some(step.c.now) else i.firedAt)
        && j.resolvedAt == (if !i.status.Resolved? && j.status.Resolved? then Some(step.c.now)
                            else if AtRest(i) && !AtRest(j) then None else i.resolvedAt)
  {
  }

  /** An acknowledgement is of a pending or firing instance that has none; it ends with its
      withdrawal, or when the instance leaves its rest again, and not with its resolution. */
  lemma {:induction false} AcknowledgedAfter(i: Instance, step: Step)
    requires WellFormed(i) && !Next(i, step).failed
    ensures var j := Next(i, step).instance;
      j.acknowledgedAt ==
        if step.Acknowledge? && !AtRest(i) && i.acknowledgedAt.None? then Some(step.at)
        else if step.Unacknowledge? || (step.Evaluate? && AtRest(i) && !AtRest(j)) then None
        else i.acknowledgedAt
  {
  }

  // ------------------------------------------------------------ whole lives

  /** What the steps make of an instance. */
  function Life(i: Instance, steps: seq<Step>): (j: Instance)
    requires WellFormed(i)
    ensures WellFormed(j)
  {
    if steps == [] then i else Next(Life(i, steps[..|steps| - 1]), steps[|steps| - 1]).instance
  }

  /** What step `k` of a life emitted. */
  function Emitted(i: Instance, steps: seq<Step>, k: nat): Option<Emission>
    requires WellFormed(i) && k < |steps|
  {
    Next(Life(i, steps[..k]), steps[k]).emission
  }

  /** From step `j` on, every evaluation found the condition breached. */
  ghost predicate BreachedSince(steps: seq<Step>, j: nat)
  {
    && j < |steps| && steps[j].Evaluate?
    && forall k :: j <= k < |steps| ==> !steps[k].Vanish? && (steps[k].Evaluate? ==> steps[k].breached)
  }

  /** The episode that began at step `j` explains why the instance is pending. */
  ghost predicate PendingFrom(steps: seq<Step>, i: Instance, j: nat)
  {
    BreachedSince(steps, j) && i.firstPendingAt == Some(steps[j].c.now)
  }

  /** And, having fired at step `f`, why it is firing. */
  ghost predicate FiringFrom(steps: seq<Step>, i: Instance, j: nat, f: nat)
  {
    && PendingFrom(steps, i, j)
    && j <= f < |steps| && steps[f].Evaluate?
    && i.firedAt == Some(steps[f].c.now)
    && (steps[f].c.pendingFor <= 0 || steps[f].c.now - steps[j].c.now >= steps[f].c.pendingFor)
  }

  /** An instance fires only after the condition has held, without a break, for the
      rule's pending time; and while it is pending or firing it has held ever since. */
  lemma {:induction false} FiresOnlyAfterPendingTime(steps: seq<Step>)
    ensures Life(FRESH, steps).status.Pending? ==> exists j: nat :: PendingFrom(steps, Life(FRESH, steps), j)
    ensures Life(FRESH, steps).status.Firing? ==> exists j: nat, f: nat :: FiringFrom(steps, Life(FRESH, steps), j, f)
  {
    if steps != [] {
      var before, last := steps[..|steps| - 1], steps[|steps| - 1];
      FiresOnlyAfterPendingTime(before);
      var was, i := Life(FRESH, before), Life(FRESH, steps);
      if i.status.Pending? || i.status.Firing? {
        var j: nat, f: nat := |before|, |before|;
        if was.status.Pending? {
          j :| PendingFrom(before, was, j);
        } else if was.status.Firing? {
          j, f :| FiringFrom(before, was, j, f);
        }
        assert PendingFrom(steps, i, j);
        assert i.status.Firing? ==> FiringFrom(steps, i, j, f);
      }
    }
  }

  /** A firing emission happens exactly on an audible transition into firing. */
  lemma {:induction false} FiringEmission(i: Instance, step: Step)
    requires WellFormed(i)
    ensures (Next(i, step).emission.Some? && Next(i, step).emission.value.transition.ToFiring?) <==>
      step.Evaluate? && step.silence.Audible? && !i.status.Firing? && Next(i, step).instance.status.Firing?
  {
  }

  /** Every conclusion of a pending or firing instance is announced, and nothing else is
      announced as one; repeats are for firing instances that nobody has acknowledged,
      once the repeat interval has passed on a channel. */
  lemma {:induction false} ResolvedAndRepeatEmissions(i: Instance, step: Step)
    requires WellFormed(i)
    ensures (Next(i, step).emission.Some? && Next(i, step).emission.value.transition.ToResolved?) <==>
      (i.status.Pending? || i.status.Firing?) && Next(i, step).instance.status.Resolved?
    ensures (Next(i, step).emission.Some? && Next(i, step).emission.value.transition.Repeat?) <==>
      && step.Evaluate? && step.breached && i.status.Firing? && i.acknowledgedAt.None?
      && step.c.repeatInterval > 0 && exists channel :: RepeatWanted(i, step.c, channel)
  {
    if step.Evaluate? {
      assert RepeatWanted(i, step.c, Browser) || RepeatWanted(i, step.c, Pushover) <==>
          exists channel :: RepeatWanted(i, step.c, channel);
    }
  }

  /** A firing instance stays firing until a step resolves it. */
  lemma {:induction false} FiringEndsResolved(i: Instance, step: Step)
    requires WellFormed(i) && i.status.Firing?
    ensures Next(i, step).instance.status.Firing? || Next(i, step).instance.status.Resolved?
  {
  }

  lemma {:induction false} StaysFiring(i: Instance, steps: seq<Step>, k: nat)
    requires WellFormed(i) && k < |steps| && Life(i, steps[..k]).status.Firing?
    ensures Life(i, steps[..k + 1]).status.Firing? || Life(i, steps[..k + 1]).status.Resolved?
  {
    assert steps[..k + 1][..k] == steps[..k];
    FiringEndsResolved(Life(i, steps[..k]), steps[k]);
  }

  lemma {:induction false} FiringUntilResolved(i: Instance, steps: seq<Step>, a: nat, b: nat)
    requires WellFormed(i) && a <= b <= |steps| && Life(i, steps[..a]).status.Firing?
    requires forall m :: a < m <= b ==> !Life(i, steps[..m]).status.Resolved?
    ensures Life(i, steps[..b]).status.Firing?
  {
    if a < b {
      FiringUntilResolved(i, steps, a, b - 1);
      StaysFiring(i, steps, b - 1);
    }
  }

  ghost predicate EmitsFiring(i: Instance, steps: seq<Step>, k: nat)
    requires WellFormed(i) && k < |steps|
  {
    Emitted(i, steps, k).Some? && Emitted(i, steps, k).value.transition.ToFiring?
  }

  /** The instance was not firing before the step, and is after it. */
  lemma {:induction false} FiresBetween(i: Instance, steps: seq<Step>, k: nat)
    requires WellFormed(i) && k < |steps| && EmitsFiring(i, steps, k)
    ensures !Life(i, steps[..k]).status.Firing? && Life(i, steps[..k + 1]).status.Firing?
  {
    FiringEmission(Life(i, steps[..k]), steps[k]);
    assert steps[..k + 1][..k] == steps[..k];
  }

  lemma {:induction false} FiringAgain(i: Instance, steps: seq<Step>, a: nat, b: nat)
    requires WellFormed(i) && a < b <= |steps|
    requires Life(i, steps[..a + 1]).status.Firing? && !Life(i, steps[..b]).status.Firing?
    ensures exists m :: a < m <= b && Life(i, steps[..m]).status.Resolved?
  {
    if forall m :: a < m <= b ==> !Life(i, steps[..m]).status.Resolved? {
      FiringUntilResolved(i, steps, a + 1, b);
      assert false;
    }
  }

  /** Each episode emits "firing" at most once: between two such emissions the instance
      was resolved. */
  lemma {:induction false} OneFiringPerEpisode(i: Instance, steps: seq<Step>, a: nat, b: nat)
    requires WellFormed(i) && a < b < |steps| && EmitsFiring(i, steps, a) && EmitsFiring(i, steps, b)
    ensures exists m :: a < m <= b && Life(i, steps[..m]).status.Resolved?
  {
    FiresBetween(i, steps, a);
    FiresBetween(i, steps, b);
    FiringAgain(i, steps, a, b);
  }

  /** Conversely it does not fire late: an instance left pending by an evaluation has
      not been pending for the rule's time yet. */
  lemma {:induction false} FiresAsSoonAsDue(steps: seq<Step>)
    requires steps != [] && steps[|steps| - 1].Evaluate? && steps[|steps| - 1].breached
    requires !Next(Life(FRESH, steps[..|steps| - 1]), steps[|steps| - 1]).failed
    ensures var c, i := steps[|steps| - 1].c, Life(FRESH, steps);
      && (i.status.Pending? || i.status.Firing?)
      && (i.status.Pending? ==>
            && c.pendingFor > 0
            && exists j: nat :: PendingFrom(steps, i, j) && c.now - steps[j].c.now < c.pendingFor)
  {
    if Life(FRESH, steps).status.Pending? {
      FiresOnlyAfterPendingTime(steps);
      var j: nat :| PendingFrom(steps, Life(FRESH, steps), j);
    }
  }

  // ------------------------------------------------------------ cooldown

  predicate Timed(step: Step)
  {
    step.Evaluate? || step.Vanish?
  }

  ghost predicate TimesOrdered(steps: seq<Step>)
  {
    forall a, b :: 0 <= a < b < |steps| && Timed(steps[a]) && Timed(steps[b]) ==> steps[a].c.now <= steps[b].c.now
  }

  /** One step's notifications: only when the global cooldown allows, and remembered. */
  lemma {:induction false} StepSends(i: Instance, step: Step, channel: Channel)
    requires WellFormed(i)
    ensures var o := Next(i, step);
      if SentOn(o.emission, channel)
      then
        && Timed(step) && !step.c.quiet && (if channel.Browser? then step.c.browser else step.c.pushover)
        && NotificationDue(LastOn(i, channel), step.c.globalCooldown, step.c.now, false)
        && LastOn(o.instance, channel) == Some(step.c.now)
      else LastOn(o.instance, channel) == LastOn(i, channel)
  {
  }

  /** The instance remembers its latest notification on each channel. */
  lemma {:induction false} RemembersLastSend(i: Instance, steps: seq<Step>, k: nat, channel: Channel)
    requires WellFormed(i) && k < |steps| && SentOn(Emitted(i, steps, k), channel) && TimesOrdered(steps)
    ensures Timed(steps[k])
    ensures LastOn(Life(i, steps), channel).Some? && LastOn(Life(i, steps), channel).value >= steps[k].c.now
  {
    var n := |steps| - 1;
    var before := steps[..n];
    StepSends(Life(i, before), steps[n], channel);
    if k < n {
      assert before[..k] == steps[..k];
      RemembersLastSend(i, before, k, channel);
    }
  }

  /** Two notifications of one instance on the same channel are at least the global
      cooldown apart, whatever caused them and whatever the rule's own cooldown. */
  lemma {:induction false} CooldownRespected(i: Instance, steps: seq<Step>, a: nat, b: nat, channel: Channel)
    requires WellFormed(i) && TimesOrdered(steps) && a < b < |steps|
    requires SentOn(Emitted(i, steps, a), channel) && SentOn(Emitted(i, steps, b), channel)
    ensures Timed(steps[a]) && Timed(steps[b])
    ensures steps[b].c.now - steps[a].c.now >= steps[b].c.globalCooldown
  {
    var before := steps[..b];
    assert before[..a] == steps[..a];
    RemembersLastSend(i, before, a, channel);
    StepSends(Life(i, before), steps[b], channel);
  }

  /** A firing is notified at least the rule's own cooldown after every earlier
      notification of the instance on the same channel. */
  lemma {:induction false} RuleCooldownRespected(i: Instance, steps: seq<Step>, a: nat, b: nat, channel: Channel)
    requires WellFormed(i) && TimesOrdered(steps) && a < b < |steps|
    requires SentOn(Emitted(i, steps, a), channel) && SentOn(Emitted(i, steps, b), channel)
    requires EmitsFiring(i, steps, b)
    ensures Timed(steps[a]) && Timed(steps[b])
    ensures steps[b].c.now - steps[a].c.now >= steps[b].c.cooldown
  {
    var before := steps[..b];
    assert before[..a] == steps[..a];
    RemembersLastSend(i, before, a, channel);
    SendsExactlyWhen(Life(i, before), steps[b], channel);
  }
}
