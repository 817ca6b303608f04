/** The rotation is fair: while a ready instance waits, no other is activated twice. */
module RoundRobin {
  import opened Options
  import opened NameOrder
  import opened ActivationGate
  import opened SurfaceSchedules
  import opened SurfacePage

  /** Going round from just after `x`, so that `x` itself comes last, `a` comes before `b`. */
  predicate Around(x: Name, a: Name, b: Name) {
    Ahead(Some(x), a, b)
  }

  lemma AroundIsTransitive(x: Name, a: Name, b: Name, c: Name)
    requires Around(x, a, b) && Around(x, b, c)
    ensures Around(x, a, c)
  {
    if Passed(Some(x), a) == Passed(Some(x), b) == Passed(Some(x), c) {
      LessIsTransitive(a, b, c);
    }
  }

  /** Serving `a` takes the cursor closer to `x` exactly when `a` comes before `x` in the rotation. */
  lemma CursorAdvances(x: Name, cursor: Name, a: Name)
    requires cursor != x && a != x
    ensures Ahead(Some(cursor), a, x) <==> Around(x, cursor, a)
  {
    LessIsTotal(cursor, x);
    LessIsTotal(cursor, a);
    LessIsTotal(a, x);
    LessIsTotal(x, x);
    if Less(cursor, a) && Less(a, x) {
      LessIsTransitive(cursor, a, x);
    }
    if Less(x, cursor) && Less(cursor, a) {
      LessIsTransitive(x, cursor, a);
    }
    if Less(a, x) && Less(x, cursor) {
      LessIsTransitive(a, x, cursor);
    }
  }

  /** At a dispatch `x` is ready, and another instance is picked. */
  ghost predicate IsPassedOver(p: Page, e: Event, x: Name) {
    e.Dispatch? ==> IsReady(p.instances, p.failed, e.ports, x) && e.pick != Some(x)
  }

  ghost predicate PassedOver(p: Page, events: seq<Event>, x: Name)
    decreases |events|
  {
    events == [] || (IsPassedOver(p, events[0], x) && PassedOver(Next(p, events[0]), events[1..], x))
  }

  /** No call takes the rotation past `x`, or is of `x` itself. */
  predicate CallFits(p: Page, e: Event, x: Name) {
    e.Call? && Assembles(p, e).Some? ==> e.name != x && Ahead(p.cursor, e.name, x)
  }

  ghost predicate CallsFit(p: Page, events: seq<Event>, x: Name)
    decreases |events|
  {
    events == [] || (CallFits(p, events[0], x) && CallsFit(Next(p, events[0]), events[1..], x))
  }

  /** The instances activated along a run, in order. */
  function Served(p: Page, events: seq<Event>): seq<Name>
    decreases |events|
  {
    if events == [] then []
    else
      var rest := Served(Next(p, events[0]), events[1..]);
      match Assembles(p, events[0])
      case None => rest
      case Some(a) => [a.name] + rest
  }

  ghost predicate Rising(x: Name, names: seq<Name>) {
    forall i, j | 0 <= i < j < |names| :: Around(x, names[i], names[j])
  }

  lemma ServedIsAhead(p: Page, e: Event, x: Name)
    requires Enabled(p, e) && IsPassedOver(p, e, x) && CallFits(p, e, x) && Assembles(p, e).Some?
    ensures Assembles(p, e).value.name != x && Ahead(p.cursor, Assembles(p, e).value.name, x)
  {
  }

  /** Along a wait, the instances served go round towards `x`. */
  lemma {:induction false} ServedRises(p: Page, events: seq<Event>, x: Name)
    requires IsRun(p, events) && PassedOver(p, events, x) && CallsFit(p, events, x)
    ensures Rising(x, Served(p, events)) && x !in Served(p, events)
    ensures p.cursor.Some? && p.cursor.value != x ==>
              forall i | 0 <= i < |Served(p, events)| :: Around(x, p.cursor.value, Served(p, events)[i])
    decreases |events|
  {
    if events != [] {
      var e, rest := events[0], Served(Next(p, events[0]), events[1..]);
      ServedRises(Next(p, e), events[1..], x);
      if Assembles(p, e).Some? {
        var a := Assembles(p, e).value.name;
        ServedIsAhead(p, e, x);
        if p.cursor.Some? && p.cursor.value != x {
          CursorAdvances(x, p.cursor.value, a);
          forall i | 0 <= i < |rest|
            ensures Around(x, p.cursor.value, rest[i])
          {
            AroundIsTransitive(x, p.cursor.value, a, rest[i]);
          }
        }
      }
    }
  }

  /**
   The condition on calls is exact: while `x` is passed over, those served come round towards it, one after the other,
   starting from the cursor, if and only if no call takes the rotation past it.
   */
  lemma {:induction false} RotationIsExact(p: Page, events: seq<Event>, x: Name)
    requires IsRun(p, events) && PassedOver(p, events, x) && p.cursor.Some? && p.cursor.value != x
    ensures x !in Served(p, events) && Rising(x, [p.cursor.value] + Served(p, events)) <==> CallsFit(p, events, x)
    decreases |events|
  {
    var c, served := p.cursor.value, Served(p, events);
    if CallsFit(p, events, x) {
      ServedRises(p, events, x);
    } else if x !in served && Rising(x, [c] + served) {
      var e := events[0];
      if Assembles(p, e).Some? {
        var a, rest := Assembles(p, e).value.name, Served(Next(p, e), events[1..]);
        var names := [c] + served;
        assert served == [a] + rest && names[0] == c && names[1] == a;
        assert Around(x, names[0], names[1]);
        CursorAdvances(x, c, a);
        RisingTail(x, c, [a] + rest);
      }
      RotationIsExact(Next(p, e), events[1..], x);
    }
  }

  lemma RisingTail(x: Name, c: Name, names: seq<Name>)
    requires Rising(x, [c] + names)
    ensures Rising(x, names)
  {
    forall i, j | 0 <= i < j < |names|
      ensures Around(x, names[i], names[j])
    {
      assert ([c] + names)[i + 1] == names[i] && ([c] + names)[j + 1] == names[j];
    }
  }

  /**
   Fairness: while an instance stays ready and unserved, and no call takes the rotation past it, no other instance
   is activated twice; so it waits for fewer activations than there are instances.
   */
  lemma NoneIsServedTwice(p: Page, events: seq<Event>, x: Name, names: set<Name>)
    requires IsRun(p, events) && PassedOver(p, events, x) && CallsFit(p, events, x)
    requires x in names && forall i | 0 <= i < |Served(p, events)| :: Served(p, events)[i] in names
    ensures forall i, j | 0 <= i < j < |Served(p, events)| :: Served(p, events)[i] != Served(p, events)[j]
    ensures |Served(p, events)| < |names|
  {
    var served := Served(p, events);
    ServedRises(p, events, x);
    forall i, j | 0 <= i < j < |served|
      ensures served[i] != served[j]
    {
      LessIsTotal(served[i], served[j]);
    }
    DistinctFit(served, names - {x});
  }

  lemma {:induction false} DistinctFit(s: seq<Name>, names: set<Name>)
    requires forall i, j | 0 <= i < j < |s| :: s[i] != s[j]
    requires forall i | 0 <= i < |s| :: s[i] in names
    ensures |s| <= |names|
    decreases |s|
  {
    if s != [] {
      DistinctFit(s[1..], names - {s[0]});
    }
  }

  // ---------------------------------------------------------------------------
  // Without the condition on calls
  // ---------------------------------------------------------------------------

  const IDLE := InstanceSchedule(None, Settled)
  const BUSY := [PortReadiness(true, true, true)]
  const PORTS: Ports := map["b" := BUSY, "c" := BUSY]
  const PICK_B := Dispatch(PORTS, Some("b"))
  const CALL_A := Call("a", "port", [], false, map[])

  /** Three idle mounts, the rotation at the first; the other two have messages. */
  predicate IsStart(p: Page) {
    p.wired && p.failed == {} && p.cursor == Some("a") && p.instances == map["a" := IDLE, "b" := IDLE, "c" := IDLE]
  }

  lemma Prepended(p: Page, e: Event, rest: seq<Event>, x: Name)
    requires Enabled(p, e) && IsRun(Next(p, e), rest) && PassedOver(Next(p, e), rest, x)
    requires IsPassedOver(p, e, x)
    ensures IsRun(p, [e] + rest) && PassedOver(p, [e] + rest, x)
    ensures Served(p, [e] + rest) ==
            (if Assembles(p, e).Some? then [Assembles(p, e).value.name] else []) + Served(Next(p, e), rest)
  {
    assert ([e] + rest)[1..] == rest;
  }

  // The page the starvation starts from is one a fresh page can come to.

  lemma EventThen(p: Page, e: Event, q: Page, rest: seq<Event>) returns (events: seq<Event>)
    requires Enabled(p, e) && q == Next(p, e) && IsRun(q, rest)
    ensures IsRun(p, events) && Final(p, events) == Final(q, rest)
  {
    events := [e] + rest;
    assert events[1..] == rest;
  }

  /** An instance is called, and finishes. */
  function AfterCall(p: Page, n: Name): Page {
    p.(instances := p.instances[n := IDLE], cursor := Some(n), log := p.log + [Activated(n, Sync, [])])
  }

  lemma CallThen(p: Page, n: Name, rest: seq<Event>) returns (events: seq<Event>)
    requires p.wired && n in p.instances && n !in p.failed && (forall m | m in p.instances :: p.instances[m].inFlight.None?)
    requires IsRun(AfterCall(p, n), rest)
    ensures IsRun(p, events) && Final(p, events) == Final(AfterCall(p, n), rest)
  {
    var e := Call(n, "port", [], false, map[]);
    var q := Next(p, e);
    assert Next(q, Event.Finish(n)).instances == AfterCall(p, n).instances;
    var tail := EventThen(q, Event.Finish(n), AfterCall(p, n), rest);
    events := EventThen(p, e, q, tail);
  }

  const ENTERED := Page(false, map["a" := Tracked(false), "b" := Tracked(false), "c" := Tracked(false)], {}, None,
                        [Mounted("a"), Mounted("b"), Mounted("c")])

  /** Three instances register. */
  lemma EnterThen(rest: seq<Event>) returns (events: seq<Event>)
    requires IsRun(ENTERED, rest)
    ensures IsRun(FRESH_PAGE, events) && Final(FRESH_PAGE, events) == Final(ENTERED, rest)
  {
    var p := Next(FRESH_PAGE, Register("a"));
    var q := Next(p, Register("b"));
    assert Next(q, Register("c")) == ENTERED by {
      assert Next(q, Register("c")).log == ENTERED.log;
    }
    var tail := EventThen(q, Register("c"), ENTERED, rest);
    tail := EventThen(p, Register("b"), q, tail);
    events := EventThen(FRESH_PAGE, Register("a"), p, tail);
  }

  const OWED := InstanceSchedule(None, Owed)
  const WIRED := ENTERED.(wired := true, instances := map["a" := OWED, "b" := OWED, "c" := OWED])

  /** Each of the three is called, "a" last. */
  lemma ServeThree() returns (events: seq<Event>)
    ensures IsRun(WIRED, events) && IsStart(Final(WIRED, events))
  {
    var q := AfterCall(WIRED, "b");
    var r := AfterCall(q, "c");
    var tail := CallThen(r, "a", []);
    tail := CallThen(q, "c", tail);
    events := CallThen(WIRED, "b", tail);
  }

  /** A document arrives. */
  lemma WireThen(rest: seq<Event>) returns (events: seq<Event>)
    requires IsRun(WIRED, rest)
    ensures IsRun(ENTERED, events) && Final(ENTERED, events) == Final(WIRED, rest)
  {
    assert WireAll(ENTERED.instances) == WIRED.instances;
    events := EventThen(ENTERED, Document, WIRED, rest);
  }

  lemma StartIsReachable() returns (events: seq<Event>)
    ensures IsRun(FRESH_PAGE, events) && IsStart(Final(FRESH_PAGE, events))
  {
    var tail := ServeThree();
    tail := WireThen(tail);
    events := EnterThen(tail);
  }

  /** "b" is picked though "c" is ready. */
  lemma PickLeg(p: Page) returns (q: Page)
    requires IsStart(p)
    ensures Enabled(p, PICK_B) && IsReady(p.instances, p.failed, PORTS, "c")
    ensures Assembles(p, PICK_B) == Some(Assembly("b", Delivery, None, BUSY))
    ensures q == Next(Next(p, PICK_B), Event.Finish("b")) && q == p.(cursor := Some("b"), log := q.log)
  {
    assert BUSY[0].IsReady();
    q := Next(Next(p, PICK_B), Event.Finish("b"));
    assert q.instances == p.instances;
  }

  /** A call of "a" takes the rotation back to where it was. */
  lemma CallLeg(p: Page, q: Page) returns (r: Page)
    requires IsStart(p) && q == p.(cursor := Some("b"), log := q.log)
    ensures Assembles(q, CALL_A) == Some(Assembly("a", Sync, Some("port"), []))
    ensures r == Next(Next(q, CALL_A), Event.Finish("a")) && IsStart(r)
  {
    r := Next(Next(q, CALL_A), Event.Finish("a"));
    assert r.instances == p.instances;
  }

  lemma {:induction false} StarveFrom(p: Page, laps: nat) returns (events: seq<Event>)
    requires IsStart(p)
    ensures IsRun(p, events) && PassedOver(p, events, "c")
    ensures |Served(p, events)| == 2 * laps && forall i | 0 <= i < laps :: Served(p, events)[2 * i] == "b"
    decreases laps
  {
    if laps == 0 {
      events := [];
    } else {
      var q := PickLeg(p);
      var r := CallLeg(p, q);
      var rest := StarveFrom(r, laps - 1);
      var called := Next(q, CALL_A);
      var picked := Next(p, PICK_B);
      var tail := [Event.Finish("a")] + rest;
      Prepended(called, Event.Finish("a"), rest, "c");
      Prepended(q, CALL_A, tail, "c");
      Prepended(picked, Event.Finish("b"), [CALL_A] + tail, "c");
      Prepended(p, PICK_B, [Event.Finish("b")] + ([CALL_A] + tail), "c");
      events := [PICK_B] + ([Event.Finish("b")] + ([CALL_A] + tail));
      EveryOther(["b"], ["a"], Served(r, rest), Served(p, events), laps);
    }
  }

  /**
   Without the condition a fresh page can come to starve an instance: a call moves the rotation too, so a caller that
   keeps asking an instance on the far side lets one neighbour run any number of times while a ready instance waits.
   */
  lemma CallsCanStarve(laps: nat) returns (before: seq<Event>, events: seq<Event>)
    ensures IsRun(FRESH_PAGE, before)
    ensures var p := Final(FRESH_PAGE, before);
            && IsRun(p, events) && PassedOver(p, events, "c")
            && |Served(p, events)| == 2 * laps && forall i | 0 <= i < laps :: Served(p, events)[2 * i] == "b"
  {
    before := StartIsReachable();
    events := StarveFrom(Final(FRESH_PAGE, before), laps);
  }

  lemma EveryOther(b: seq<Name>, a: seq<Name>, rest: seq<Name>, all: seq<Name>, k: nat)
    requires k > 0 && |b| == |a| == 1 && |rest| == 2 * (k - 1) && all == b + (a + rest)
    requires forall i | 0 <= i < k - 1 :: rest[2 * i] == b[0]
    ensures |all| == 2 * k && forall i | 0 <= i < k :: all[2 * i] == b[0]
  {
    forall i | 0 < i < k
      ensures all[2 * i] == b[0]
    {
      assert all[2 * i] == rest[2 * (i - 1)];
    }
  }
}
