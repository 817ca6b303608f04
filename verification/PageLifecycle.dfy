/** Who is in service, dead or running on a page: facts about the events so far, by their positions. */
module PageLifecycle {
  import opened NameOrder
  import opened ActivationGate
  import opened SurfaceSchedules
  import opened SurfacePage

  /** Put into service, and not taken out since. */
  ghost predicate IsInService(events: seq<Event>, n: Name) {
    exists i :: 0 <= i < |events| && events[i] == Register(n) && forall j | i < j < |events| :: events[j] != Deregister(n)
  }

  /** Killed, and not taken out of service since. */
  ghost predicate IsDead(events: seq<Event>, n: Name) {
    exists i :: 0 <= i < |events| && events[i] == Kill(n) && forall j | i < j < |events| :: events[j] != Deregister(n)
  }

  /** The event that many events into the run activates the instance. */
  ghost predicate ActivatesAt(events: seq<Event>, i: nat, n: Name)
    requires i < |events|
  {
    var a := Assembles(Final(FRESH_PAGE, events[..i]), events[i]);
    a.Some? && a.value.name == n
  }

  predicate EndsActivation(e: Event, n: Name) {
    e == Finish(n) || e == Kill(n) || e == Deregister(n)
  }

  /** Activated, and neither finished, killed nor taken out of service since. */
  ghost predicate IsRunning(events: seq<Event>, n: Name) {
    exists i: nat :: i < |events| && ActivatesAt(events, i, n) && forall j | i < j < |events| :: !EndsActivation(events[j], n)
  }

  // ---------------------------------------------------------------------------
  // One more event
  // ---------------------------------------------------------------------------

  lemma {:induction false} RunSnoc(p: Page, events: seq<Event>, e: Event)
    ensures IsRun(p, events + [e]) <==> IsRun(p, events) && Enabled(Final(p, events), e)
    ensures Final(p, events + [e]) == Next(Final(p, events), e)
    decreases |events|
  {
    if events == [] {
      assert [e][1..] == [];
    } else {
      assert (events + [e])[1..] == events[1..] + [e];
      RunSnoc(Next(p, events[0]), events[1..], e);
    }
  }

  lemma InServiceSnoc(events: seq<Event>, e: Event, n: Name)
    ensures IsInService(events + [e], n) <==> e == Register(n) || (IsInService(events, n) && e != Deregister(n))
  {
    var all := events + [e];
    if IsInService(events, n) && e != Deregister(n) {
      var i :| 0 <= i < |events| && events[i] == Register(n) && forall j | i < j < |events| :: events[j] != Deregister(n);
      assert all[i] == Register(n);
    }
    if e == Register(n) {
      assert all[|events|] == Register(n);
    }
    if IsInService(all, n) && e != Register(n) {
      var i :| 0 <= i < |all| && all[i] == Register(n) && forall j | i < j < |all| :: all[j] != Deregister(n);
      assert events[i] == Register(n) && all[|events|] == e;
      assert forall j | i < j < |events| :: events[j] == all[j];
    }
  }

  lemma DeadSnoc(events: seq<Event>, e: Event, n: Name)
    ensures IsDead(events + [e], n) <==> e == Kill(n) || (IsDead(events, n) && e != Deregister(n))
  {
    var all := events + [e];
    if IsDead(events, n) && e != Deregister(n) {
      var i :| 0 <= i < |events| && events[i] == Kill(n) && forall j | i < j < |events| :: events[j] != Deregister(n);
      assert all[i] == Kill(n);
    }
    if e == Kill(n) {
      assert all[|events|] == Kill(n);
    }
    if IsDead(all, n) && e != Kill(n) {
      var i :| 0 <= i < |all| && all[i] == Kill(n) && forall j | i < j < |all| :: all[j] != Deregister(n);
      assert events[i] == Kill(n) && all[|events|] == e;
      assert forall j | i < j < |events| :: events[j] == all[j];
    }
  }

  lemma ActivatesAtSnoc(events: seq<Event>, e: Event, i: nat, n: Name)
    requires i < |events|
    ensures ActivatesAt(events + [e], i, n) == ActivatesAt(events, i, n)
  {
    assert (events + [e])[..i] == events[..i];
  }

  lemma RunningSnoc(events: seq<Event>, e: Event, n: Name)
    ensures IsRunning(events + [e], n) <==>
            ActivatesAt(events + [e], |events|, n) || (IsRunning(events, n) && !EndsActivation(e, n))
  {
    var all := events + [e];
    if IsRunning(events, n) && !EndsActivation(e, n) {
      var i: nat :| i < |events| && ActivatesAt(events, i, n) && forall j | i < j < |events| :: !EndsActivation(events[j], n);
      ActivatesAtSnoc(events, e, i, n);
      assert forall j | i < j < |all| :: !EndsActivation(all[j], n);
    }
    if IsRunning(all, n) && !ActivatesAt(all, |events|, n) {
      var i: nat :| i < |all| && ActivatesAt(all, i, n) && forall j | i < j < |all| :: !EndsActivation(all[j], n);
      ActivatesAtSnoc(events, e, i, n);
      assert all[|events|] == e;
      assert forall j | i < j < |events| :: events[j] == all[j];
    }
  }

  // ---------------------------------------------------------------------------
  // Every run
  // ---------------------------------------------------------------------------

  /** The page's tables say what the events say. */
  ghost predicate TablesTell(events: seq<Event>, n: Name) {
    var p := Final(FRESH_PAGE, events);
    && (n in p.instances <==> IsInService(events, n))
    && (n in p.failed <==> IsDead(events, n))
    && (n in p.instances && p.instances[n].inFlight.Some? <==> IsRunning(events, n))
    && (n in p.failed ==> n in p.instances)
  }

  /**
   On every run of a page: an instance is in the table exactly while it is in service, terminal exactly from its death
   until it is taken out of service, and in flight exactly from its activation until that ends.
   */
  lemma {:induction false} LifecycleIsExact(events: seq<Event>, n: Name)
    requires IsRun(FRESH_PAGE, events)
    ensures TablesTell(events, n)
    decreases |events|
  {
    if events != [] {
      var front, e := events[..|events| - 1], events[|events| - 1];
      assert events == front + [e];
      RunSnoc(FRESH_PAGE, front, e);
      LifecycleIsExact(front, n);
      LifecycleStep(front, e, n);
    }
  }

  lemma LifecycleStep(events: seq<Event>, e: Event, n: Name)
    requires IsRun(FRESH_PAGE, events) && Enabled(Final(FRESH_PAGE, events), e) && TablesTell(events, n)
    ensures TablesTell(events + [e], n)
  {
    RunSnoc(FRESH_PAGE, events, e);
    InServiceSnoc(events, e, n);
    DeadSnoc(events, e, n);
    RunningSnoc(events, e, n);
    assert (events + [e])[..|events|] == events;
    var p := Final(FRESH_PAGE, events);
    assert ActivatesAt(events + [e], |events|, n) <==> Assembles(p, e).Some? && Assembles(p, e).value.name == n;
  }
}
