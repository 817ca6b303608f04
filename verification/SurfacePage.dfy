/**
 A page as a state machine: instances come and go, bindings documents arrive, the driver dispatches the next
 ready instance, and callers ask a named instance to run and answer. A page reload is a new run.
 */
module SurfacePage {
  import opened Options
  import opened NameOrder
  import opened ActivationGate
  import opened SurfaceSchedules

  datatype SyncRefusal = ReEntrant | Unregistered | Failed | NotMounted | NotWired

  /** What happened on the page, in order: an instance was put into service, or an activation was assembled for it. */
  datatype Note =
    | Mounted(name: Name)
    | Activated(name: Name, wake: Wake, ports: seq<PortReadiness>)

  datatype Page = Page(wired: bool, instances: Instances, failed: set<Name>, cursor: Option<Name>, log: seq<Note>)

  datatype Event =
    | Register(name: Name)
    | Deregister(name: Name)
    | Document
    | Dispatch(ports: Ports, pick: Option<Name>)
    /** `chain`: the instances whose activations are on the stack; `dom`: the callee holds that grant. */
    | Call(name: Name, port: string, chain: seq<Name>, dom: bool, ports: Ports)
    | Finish(name: Name)
    | Kill(name: Name)

  /** Why a call is refused, if it is; the checks in order. */
  function Refusal(p: Page, name: Name, chain: seq<Name>, dom: bool): Option<SyncRefusal> {
    if if chain == [] then exists n :: n in p.instances && p.instances[n].inFlight.Some?
       else name in p.instances && p.instances[name].inFlight.Some? then Some(ReEntrant)
    else if name !in p.instances then Some(Unregistered)
    else if name in p.failed then Some(Failed)
    else if chain != [] && p.instances[name].mount == Owed && dom && p.wired then Some(NotMounted)
    else if !p.wired then Some(NotWired)
    else None
  }

  ghost predicate Enabled(p: Page, e: Event) {
    match e
    case Register(n) => n !in p.instances
    case Deregister(n) => n in p.instances
    case Document => true
    /** Only a document binds ports, so before the first one no instance has any. */
    case Dispatch(ports, pick) =>
      (!p.wired ==> ports == map[]) && IsPick(p.instances, p.cursor, p.failed, ports, pick)
    case Call(n, _, chain, _, _) => n !in chain
    case Finish(n) => n in p.instances
    case Kill(n) => n in p.instances
  }

  /** The activation a step assembles: for whom, why, and for which call. */
  datatype Assembly = Assembly(name: Name, wake: Wake, sync: Option<string>, ports: seq<PortReadiness>)

  function Assembles(p: Page, e: Event): Option<Assembly> {
    match e
    case Dispatch(ports, Some(x)) =>
      if x !in p.instances then None
      else
        (match Readiness(p.instances[x].mount, AnyReady(PortsOf(ports, x)))
         case None => None
         case Some(wake) => Some(Assembly(x, wake, None, PortsOf(ports, x))))
    case Call(n, port, chain, dom, ports) =>
      if Refusal(p, n, chain, dom).None? then Some(Assembly(n, Sync, Some(port), PortsOf(ports, n))) else None
    case _ => None
  }

  function Next(p: Page, e: Event): Page {
    match Assembles(p, e)
    case Some(a) =>
      p.(instances := p.instances[a.name := Assembled(a.sync)], cursor := Some(a.name),
         log := p.log + [Activated(a.name, a.wake, a.ports)])
    case None =>
      match e
      case Register(n) =>
        p.(instances := p.instances[n := Tracked(p.wired)], failed := p.failed - {n}, log := p.log + [Mounted(n)])
      case Deregister(n) => p.(instances := p.instances - {n}, failed := p.failed - {n})
      case Document => p.(wired := true, instances := WireAll(p.instances))
      case Finish(n) => p.(instances := Idle(p.instances, n))
      case Kill(n) => p.(instances := Idle(p.instances, n), failed := p.failed + {n})
      case _ => p
  }

  function Idle(instances: Instances, n: Name): Instances {
    if n in instances then instances[n := instances[n].(inFlight := None)] else instances
  }

  ghost predicate IsRun(p: Page, events: seq<Event>)
    decreases |events|
  {
    events == [] || (Enabled(p, events[0]) && IsRun(Next(p, events[0]), events[1..]))
  }

  function Final(p: Page, events: seq<Event>): Page
    decreases |events|
  {
    if events == [] then p else Final(Next(p, events[0]), events[1..])
  }

  const FRESH_PAGE := Page(false, map[], {}, None, [])
}
