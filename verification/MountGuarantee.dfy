/** Every mount gets its one guaranteed activation, and no other activation is ever empty. */
module MountGuarantee {
  import opened Options
  import opened NameOrder
  import opened ActivationGate
  import opened SurfaceSchedules
  import opened SurfacePage

  /** How many activations the instance has had since it was last put into service. */
  function Activations(log: seq<Note>, n: Name): nat {
    if log == [] then 0
    else
      var front, note := log[..|log| - 1], log[|log| - 1];
      if note.name != n then Activations(front, n)
      else if note.Mounted? then 0
      else Activations(front, n) + 1
  }

  /** How many of those had no ready port and no caller waiting. */
  function EmptyActivations(log: seq<Note>, n: Name): nat {
    if log == [] then 0
    else
      var front, note := log[..|log| - 1], log[|log| - 1];
      if note.name != n then EmptyActivations(front, n)
      else if note.Mounted? then 0
      else EmptyActivations(front, n) + if note.wake != Sync && !HasOwedPort(note.ports) then 1 else 0
  }

  /** The debt is a fact about history: settled by the first activation, owed from the first document until then. */
  function DebtOf(wired: bool, activations: nat): MountDebt {
    if activations > 0 then Settled else if wired then Owed else Unwired
  }

  /** The reason given for an activation is the right one. */
  ghost predicate IsRightWake(log: seq<Note>, i: nat)
    requires i < |log|
  {
    log[i].Activated? && log[i].wake != Sync ==>
      && (log[i].wake == Mount <==> Activations(log[..i], log[i].name) == 0)
      && (log[i].wake == Delivery ==> HasOwedPort(log[i].ports))
  }

  ghost predicate MountsOk(p: Page) {
    && (forall n | n in p.instances :: p.instances[n].mount == DebtOf(p.wired, Activations(p.log, n)))
    && (forall i | 0 <= i < |p.log| :: IsRightWake(p.log, i))
  }

  lemma ActivationsSnoc(log: seq<Note>, note: Note, n: Name)
    ensures Activations(log + [note], n) ==
            if note.name != n then Activations(log, n) else if note.Mounted? then 0 else Activations(log, n) + 1
  {
    assert (log + [note])[..|log|] == log;
  }

  lemma RightWakesGrow(log: seq<Note>, note: Note)
    requires forall i | 0 <= i < |log| :: IsRightWake(log, i)
    requires IsRightWake(log + [note], |log|)
    ensures forall i | 0 <= i < |log + [note]| :: IsRightWake(log + [note], i)
  {
    forall i | 0 <= i < |log|
      ensures IsRightWake(log + [note], i)
    {
      assert (log + [note])[..i] == log[..i] && IsRightWake(log, i);
    }
  }

  lemma AssemblyKeepsMounts(p: Page, e: Event, a: Assembly)
    requires MountsOk(p) && Enabled(p, e) && Assembles(p, e) == Some(a)
    ensures MountsOk(Next(p, e))
  {
    var note := Activated(a.name, a.wake, a.ports);
    assert (p.log + [note])[..|p.log|] == p.log;
    assert a.name in p.instances;
    GateIsExact(p.instances[a.name].mount, a.ports);
    RightWakesGrow(p.log, note);
    forall n | n in p.instances
      ensures Next(p, e).instances[n].mount == DebtOf(p.wired, Activations(Next(p, e).log, n))
    {
      ActivationsSnoc(p.log, note, n);
    }
  }

  lemma StepKeepsMounts(p: Page, e: Event)
    requires MountsOk(p) && Enabled(p, e)
    ensures MountsOk(Next(p, e))
  {
    match Assembles(p, e)
    case Some(a) => AssemblyKeepsMounts(p, e, a);
    case None =>
      if e.Register? {
        RightWakesGrow(p.log, Mounted(e.name));
        forall n | n in Next(p, e).instances
          ensures Next(p, e).instances[n].mount == DebtOf(p.wired, Activations(Next(p, e).log, n))
        {
          ActivationsSnoc(p.log, Mounted(e.name), n);
        }
      }
  }

  lemma {:induction false} RunKeepsMounts(p: Page, events: seq<Event>)
    requires MountsOk(p) && IsRun(p, events)
    ensures MountsOk(Final(p, events))
    decreases |events|
  {
    if events != [] {
      StepKeepsMounts(p, events[0]);
      RunKeepsMounts(Next(p, events[0]), events[1..]);
    }
  }

  lemma {:induction false} EmptyOnlyFirst(log: seq<Note>, n: Name)
    requires forall i | 0 <= i < |log| :: IsRightWake(log, i)
    ensures EmptyActivations(log, n) <= if Activations(log, n) == 0 then 0 else 1
    decreases |log|
  {
    if log != [] {
      var k := |log| - 1;
      forall i | 0 <= i < k
        ensures IsRightWake(log[..k], i)
      {
        assert log[..k][..i] == log[..i] && IsRightWake(log, i);
      }
      EmptyOnlyFirst(log[..k], n);
      assert IsRightWake(log, k);
    }
  }

  /**
   The guarantee, over every run of a page: an instance's debt is settled exactly when it has been activated since
   it was put into service and is owed exactly from the first document until then; a mount activation is always
   the first of its mount, and a first activation that no caller asked for is always a mount activation; a delivery
   always has a ready port; and at most one activation per mount has nothing to deliver and nobody waiting.
   */
  lemma MountGuaranteeHolds(events: seq<Event>, n: Name)
    requires IsRun(FRESH_PAGE, events)
    ensures MountsOk(Final(FRESH_PAGE, events))
    ensures EmptyActivations(Final(FRESH_PAGE, events).log, n) <= 1
  {
    RunKeepsMounts(FRESH_PAGE, events);
    EmptyOnlyFirst(Final(FRESH_PAGE, events).log, n);
  }

  /**
   What assembling takes for granted holds: there is wiring to window against, and the instance is in service, alive
   and not already running.
   */
  lemma AssemblyIsSound(events: seq<Event>, e: Event)
    requires IsRun(FRESH_PAGE, events) && Enabled(Final(FRESH_PAGE, events), e)
    ensures var p := Final(FRESH_PAGE, events);
            Assembles(p, e).Some? ==> p.wired && CanRun(p.instances, p.failed, Assembles(p, e).value.name)
  {
    RunKeepsMounts(FRESH_PAGE, events);
  }

  /** A mount that is wired, idle and not yet activated is ready at every dispatch, whatever its ports hold. */
  lemma UnservedMountIsReady(events: seq<Event>, n: Name, ports: Ports)
    requires IsRun(FRESH_PAGE, events)
    requires var p := Final(FRESH_PAGE, events);
             p.wired && CanRun(p.instances, p.failed, n) && Activations(p.log, n) == 0
    ensures var p := Final(FRESH_PAGE, events);
            IsReady(p.instances, p.failed, ports, n)
  {
    RunKeepsMounts(FRESH_PAGE, events);
  }

  /** Whether `n` may be activated at a dispatch: in service, alive, idle; and owed its mount or something on a port. */
  lemma ReadyIsExact(instances: Instances, failed: set<Name>, ports: Ports, n: Name)
    ensures IsReady(instances, failed, ports, n) <==>
            && n in instances && n !in failed && instances[n].inFlight == None
            && (instances[n].mount == Owed || (n in ports && HasOwedPort(ports[n])))
  {
    if n in instances {
      GateIsExact(instances[n].mount, PortsOf(ports, n));
    }
  }

  /** The checks of a call, in order: each with the refusal it gives. */
  ghost function CallChecks(p: Page, name: Name, chain: seq<Name>, dom: bool): seq<(bool, SyncRefusal)> {
    [(if chain == [] then forall n | n in p.instances :: p.instances[n].inFlight == None
      else name in p.instances ==> p.instances[name].inFlight == None, ReEntrant),
     (name in p.instances, Unregistered),
     (name !in p.failed, Failed),
     (!(chain != [] && dom && p.wired && name in p.instances && p.instances[name].mount == Owed), NotMounted),
     (p.wired, NotWired)]
  }

  /** A call is refused for the first check that fails, and otherwise runs its instance and settles its mount. */
  lemma CallIsExact(p: Page, name: Name, port: string, chain: seq<Name>, dom: bool, ports: Ports)
    ensures var checks := CallChecks(p, name, chain, dom);
            match Refusal(p, name, chain, dom)
            case Some(why) => exists i :: 0 <= i < 5 && checks[i] == (false, why) && forall j | 0 <= j < i :: checks[j].0
            case None =>
              && (forall i | 0 <= i < 5 :: checks[i].0)
              && (var q := Next(p, Call(name, port, chain, dom, ports));
                  name in q.instances && q.instances[name] == InstanceSchedule(Some(InFlight(Some(port))), Settled) && q.cursor == Some(name))
  {
    var checks := CallChecks(p, name, chain, dom);
    var r := Refusal(p, name, chain, dom);
    if r.Some? {
      var i := if !checks[0].0 then 0 else if !checks[1].0 then 1 else if !checks[2].0 then 2 else if !checks[3].0 then 3 else 4;
      assert checks[i] == (false, r.value);
    }
  }
}
