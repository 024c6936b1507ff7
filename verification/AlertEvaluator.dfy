/** The evaluator's working state for one rule, updated in place during a pass. */
module AlertEvaluators {
  import opened AlertLife
  import opened AlertPass
  import opened Wrappers

  class AlertEvaluator {
    var known: map<string, Instance>
    var dirty: set<string>
    var created: map<string, Instance>
    var log: seq<(string, Emission)>
    var failed: bool

    function View(): Pass
      reads this
    {
      Pass(known, dirty, created, log, failed)
    }

    constructor (store: Store)
      ensures View() == Begin(store)
    {
      known, dirty, created, log, failed := store, {}, map[], [], false;
    }

    /** Sends a notification on the channels that are due and marks the instance. */
    method Notify(key: string, i: Instance, transition: Transition, c: Context, force: bool)
      returns (j: Instance, e: Emission)
      modifies `log
      ensures (j, e) == Emit(i, transition, c, force)
      ensures forall channel :: SentOn(Some(e), channel) <==>
        && Reaches(c, channel) && Elapsed(LastOn(i, channel), c.globalCooldown, c.now)
        && (force || Elapsed(LastOn(i, channel), c.cooldown, c.now))
      ensures log == old(log) + [(key, e)]
    {
      j := i;
      var cooldown := if c.globalCooldown > 0 then c.globalCooldown else 0;
      var browser := !c.quiet && c.browser && NotificationDue(i.lastBrowserAt, c.cooldown, c.now, force)
                     && NotificationDue(i.lastBrowserAt, cooldown, c.now, false);
      if browser {
        j := j.(lastBrowserAt := Some(c.now));
      }
      var pushover := !c.quiet && c.pushover && NotificationDue(i.lastPushoverAt, c.cooldown, c.now, force)
                      && NotificationDue(i.lastPushoverAt, cooldown, c.now, false);
      if pushover && c.pushoverDelivers {
        j := j.(lastPushoverAt := Some(c.now));
      }
      e := Emission(transition, c.now, browser, pushover && c.pushoverDelivers);
      log := log + [(key, e)];
    }

    method Queue(key: string, before: Instance, now: Instance)
      modifies `dirty, `created
      ensures dirty == if !Same(before, now) && key in known then old(dirty) + {key} else old(dirty)
      ensures created == if !Same(before, now) && key !in known then old(created)[key := now] else old(created)
    {
      if Same(before, now) {
        return;
      }
      if key in known {
        dirty := dirty + {key};
      } else {
        created := created[key := now];
      }
    }

    /** Evaluates one group. A loaded instance changes in place even when the silence
        lookup fails, which ends the pass. */
    method AdvanceInstance(r: Row, c: Context)
      requires StoreValid(known) && !failed
      modifies this
      ensures View() == AdvanceKey(old(View()), r, c)
      ensures StoreValid(known)
    {
      var before := if r.key in known then known[r.key] else FRESH;
      var current := before.(value := r.value, lastEvaluatedAt := c.now);
      var e: Emission;
      if !r.breached {
        if !current.status.Resolved? {
          current := current.(status := Resolved, resolvedAt := Some(c.now));
        }
        if !before.status.Absent? && !before.status.Resolved? {
          current, e := Notify(r.key, current, ToResolved, c, true);
        }
      } else {
        if current.status.Absent? || current.status.Resolved? {
          current := current.(status := Pending, firstPendingAt := Some(c.now),
                              resolvedAt := None, acknowledgedAt := None);
        }
        if current.status.Pending? && (c.pendingFor <= 0 || c.now - current.firstPendingAt.value >= c.pendingFor) {
          current := current.(status := Firing, firedAt := Some(c.now));
        }
        if !before.status.Firing? && current.status.Firing? {
          if r.silence.Unknown? {
            failed := true;
          } else if r.silence.Audible? {
            current, e := Notify(r.key, current, ToFiring, c, false);
          }
        }
        if before.status.Firing? && current.status.Firing? && current.acknowledgedAt.None?
           && c.repeatInterval > 0 && RepeatDue(current, c) {
          current, e := Notify(r.key, current, Repeat, c, true);
        }
      }
      if !failed {
        Queue(r.key, before, current);
      }
      if r.key in known {
        known := known[r.key := current];
      }
    }

    method AdvanceAll(rows: seq<Row>, c: Context)
      requires StoreValid(known) && !failed
      modifies this
      ensures View() == AdvanceRows(old(View()), rows, c)
      ensures StoreValid(known)
    {
      ghost var p := View();
      var i := 0;
      while i < |rows| && !failed
        invariant 0 <= i <= |rows| && StoreValid(known)
        invariant View() == AdvanceRows(p, rows[..i], c)
      {
        assert rows[..i + 1][..i] == rows[..i];
        if rows[i].numeric {
          AdvanceInstance(rows[i], c);
        } else {
          failed := true;
        }
        i := i + 1;
      }
      StaysFailed(p, rows, i, c);
    }

    /** Resolves the loaded instances whose group is missing from the results. */
    method ResolveMissingInstances(order: seq<string>, seen: set<string>, c: Context)
      requires StoreValid(known)
      modifies `known, `dirty, `log
      ensures View() == ResolveMissing(old(View()), order, seen, c)
      ensures StoreValid(known)
    {
      ghost var p := View();
      for i := 0 to |order|
        invariant StoreValid(known)
        invariant View() == ResolveMissing(p, order[..i], seen, c)
      {
        assert order[..i + 1][..i] == order[..i];
        var key := order[i];
        if key !in known || key in seen || known[key].status.Resolved? {
          continue;
        }
        var resolved := known[key].(status := Resolved, resolvedAt := Some(c.now), lastEvaluatedAt := c.now);
        var j, e := Notify(key, resolved, ToResolved, c, true);
        known := known[key := j];
        dirty := dirty + {key};
      }
      assert order[..|order|] == order;
    }
  }

  lemma {:induction false} StaysFailed(p: Pass, rows: seq<Row>, i: nat, c: Context)
    requires StoreValid(p.known) && i <= |rows|
    requires i == |rows| || AdvanceRows(p, rows[..i], c).failed
    ensures AdvanceRows(p, rows, c) == AdvanceRows(p, rows[..i], c)
    decreases |rows|
  {
    if i == |rows| {
      assert rows[..i] == rows;
    } else {
      assert rows[..|rows| - 1][..i] == rows[..i];
      StaysFailed(p, rows[..|rows| - 1], i, c);
    }
  }
}
