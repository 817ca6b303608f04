/** The page's scheduler table: which instance runs next, and what each mount is still owed. */
module SurfaceSchedules {
  import opened Options
  import opened NameOrder
  import opened ActivationGate

  /** An activation in flight; `sync` is the port of the request it answers, if it answers one. */
  datatype InFlight = InFlight(sync: Option<string>)

  datatype InstanceSchedule = InstanceSchedule(inFlight: Option<InFlight>, mount: MountDebt)

  type Instances = map<Name, InstanceSchedule>

  /** The bound input ports of each instance, as the channel stores answer for them. */
  type Ports = map<Name, seq<PortReadiness>>

  function PortsOf(ports: Ports, n: Name): seq<PortReadiness> {
    if n in ports then ports[n] else []
  }

  /** Registered, alive, and not already running. */
  predicate CanRun(instances: Instances, failed: set<Name>, n: Name) {
    n in instances && n !in failed && instances[n].inFlight.None?
  }

  predicate IsReady(instances: Instances, failed: set<Name>, ports: Ports, n: Name) {
    CanRun(instances, failed, n) && Readiness(instances[n].mount, AnyReady(PortsOf(ports, n))).Some?
  }

  /** The rotation has already gone past this name, so its turn is in the next lap. */
  predicate Passed(cursor: Option<Name>, n: Name) {
    cursor.Some? && !Less(cursor.value, n)
  }

  /** Starting after the cursor and going round, `a` comes before `b`. */
  predicate Ahead(cursor: Option<Name>, a: Name, b: Name) {
    if Passed(cursor, a) == Passed(cursor, b) then Less(a, b) else Passed(cursor, b)
  }

  /** The pick: nothing when nothing is ready, otherwise the ready instance that comes first in the rotation. */
  ghost predicate IsPick(instances: Instances, cursor: Option<Name>, failed: set<Name>, ports: Ports, pick: Option<Name>) {
    match pick
    case None => forall n :: !IsReady(instances, failed, ports, n)
    case Some(x) =>
      IsReady(instances, failed, ports, x)
      && forall n | IsReady(instances, failed, ports, n) && n != x :: Ahead(cursor, x, n)
  }

  function Tracked(wired: bool): InstanceSchedule {
    InstanceSchedule(None, if wired then Owed else Unwired)
  }

  function WiredRow(row: InstanceSchedule): InstanceSchedule {
    if row.mount == Unwired then row.(mount := Owed) else row
  }

  /** Every mount that was waiting for a document is now owed its activation; no other debt changes. */
  function WireAll(instances: Instances): Instances {
    map n | n in instances :: WiredRow(instances[n])
  }

  function Assembled(sync: Option<string>): InstanceSchedule {
    InstanceSchedule(Some(InFlight(sync)), Settled)
  }

  class Schedules {
    var instances: Instances
    /** The keys of `instances` in order: the table is an ordered map. */
    var order: seq<Name>
    var cursor: Option<Name>

    ghost predicate Valid()
      reads this
    {
      Ascending(order) && forall n :: n in order <==> n in instances
    }

    constructor ()
      ensures Valid() && instances == map[] && cursor == None
    {
      instances, order, cursor := map[], [], None;
    }

    method Track(n: Name, wired: bool)
      requires Valid() && n !in instances
      modifies this
      ensures Valid() && cursor == old(cursor)
      ensures instances == old(instances)[n := Tracked(wired)]
    {
      instances := instances[n := Tracked(wired)];
      var k := Position(order, n);
      assert n !in order;
      ghost var before := order;
      order := order[..k] + [n] + order[k..];
      InsertionAscends(before, k, n);
    }

    method Forget(n: Name)
      requires Valid() && n in instances
      modifies this
      ensures Valid() && cursor == old(cursor)
      ensures instances == old(instances) - {n}
    {
      instances := instances - {n};
      var k := 0;
      while order[k] != n
        invariant k < |order| && n in order && n !in order[..k]
        decreases |order| - k
      {
        k := k + 1;
      }
      RemovalAscends(order, k);
      order := order[..k] + order[k + 1..];
    }

    method WireMounts()
      requires Valid()
      modifies this
      ensures Valid() && cursor == old(cursor)
      ensures instances == WireAll(old(instances))
    {
      var k := 0;
      while k < |order|
        invariant k <= |order| && order == old(order) && cursor == old(cursor)
        invariant instances.Keys == old(instances).Keys
        invariant forall i | 0 <= i < k :: instances[order[i]] == WiredRow(old(instances)[order[i]])
        invariant forall i | k <= i < |order| :: instances[order[i]] == old(instances)[order[i]]
      {
        var n := order[k];
        assert forall i | 0 <= i < |order| && i != k :: order[i] != n by {
          forall i | 0 <= i < |order| && i != k
            ensures order[i] != n
          {
            LessIsTotal(order[i], n);
          }
        }
        if instances[n].mount == Unwired {
          instances := instances[n := instances[n].(mount := Owed)];
        }
        k := k + 1;
      }
    }

    /** The loop over the table in name order, resumed after the last instance that was handed out. */
    method Ready(failed: set<Name>, ports: Ports) returns (pick: Option<Name>)
      requires Valid()
      ensures IsPick(instances, cursor, failed, ports, pick)
    {
      var runnable := Runnable(failed);
      var start := 0;
      while start < |runnable| && Passed(cursor, runnable[start])
        invariant start <= |runnable|
        invariant forall i | 0 <= i < start :: Passed(cursor, runnable[i])
      {
        start := start + 1;
      }
      PassedIsPrefix(cursor, runnable, start);
      var k := start;
      while k < |runnable|
        invariant start <= k <= |runnable|
        invariant forall i | start <= i < k :: !IsReady(instances, failed, ports, runnable[i])
      {
        if Readiness(instances[runnable[k]].mount, AnyReady(PortsOf(ports, runnable[k]))).Some? {
          return Some(runnable[k]);
        }
        k := k + 1;
      }
      k := 0;
      while k < start
        invariant k <= start
        invariant forall i | 0 <= i < k :: !IsReady(instances, failed, ports, runnable[i])
      {
        if Readiness(instances[runnable[k]].mount, AnyReady(PortsOf(ports, runnable[k]))).Some? {
          return Some(runnable[k]);
        }
        k := k + 1;
      }
      return None;
    }

    method Runnable(failed: set<Name>) returns (runnable: seq<Name>)
      requires Valid()
      ensures Ascending(runnable)
      ensures forall i | 0 <= i < |runnable| :: CanRun(instances, failed, runnable[i])
      ensures forall n | CanRun(instances, failed, n) :: n in runnable
    {
      runnable := [];
      var k := 0;
      while k < |order|
        invariant k <= |order| && Ascending(runnable)
        invariant forall i | 0 <= i < |runnable| :: runnable[i] in order[..k] && CanRun(instances, failed, runnable[i])
        invariant forall i | 0 <= i < k && CanRun(instances, failed, order[i]) :: order[i] in runnable
      {
        assert forall n | n in order[..k] :: Less(n, order[k]);
        if CanRun(instances, failed, order[k]) {
          runnable := runnable + [order[k]];
        }
        k := k + 1;
      }
    }

    /**
     Both kinds of assembly. The debt is settled here, whatever the reason; until it finishes, the instance is not picked
     again; and from here on every other instance comes before it in the rotation.
     */
    method Assemble(n: Name, sync: Option<string>)
      requires Valid() && n in instances && instances[n].inFlight.None?
      modifies this
      ensures Valid() && cursor == Some(n)
      ensures forall m | m != n :: Ahead(cursor, m, n)
      ensures forall failed, ports :: !IsReady(instances, failed, ports, n)
      ensures instances == old(instances)[n := Assembled(sync)]
    {
      instances := instances[n := instances[n].(inFlight := Some(InFlight(sync)), mount := Settled)];
      cursor := Some(n);
      forall m | m != n
        ensures Ahead(cursor, m, n)
      {
        LastInRotation(n, m);
      }
    }

    method Finish(n: Name)
      requires Valid() && n in instances
      modifies this
      ensures Valid() && cursor == old(cursor)
      ensures instances == old(instances)[n := old(instances)[n].(inFlight := None)]
    {
      instances := instances[n := instances[n].(inFlight := None)];
    }
  }

  /** Right after it was served, an instance is last in the rotation. */
  lemma LastInRotation(n: Name, m: Name)
    requires m != n
    ensures Ahead(Some(n), m, n)
  {
    LessIsTotal(n, n);
    LessIsTotal(m, n);
  }

  /** Where a new name belongs. */
  method Position(names: seq<Name>, n: Name) returns (k: nat)
    requires Ascending(names) && n !in names
    ensures k <= |names|
    ensures forall i | 0 <= i < k :: Less(names[i], n)
    ensures forall i | k <= i < |names| :: Less(n, names[i])
  {
    k := 0;
    while k < |names| && Less(names[k], n)
      invariant k <= |names|
      invariant forall i | 0 <= i < k :: Less(names[i], n)
    {
      k := k + 1;
    }
    if k < |names| {
      LessIsTotal(n, names[k]);
      forall i | k < i < |names|
        ensures Less(n, names[i])
      {
        LessIsTransitive(n, names[k], names[i]);
      }
    }
  }

  lemma InsertionAscends(names: seq<Name>, k: nat, n: Name)
    requires Ascending(names) && k <= |names|
    requires forall i | 0 <= i < k :: Less(names[i], n)
    requires forall i | k <= i < |names| :: Less(n, names[i])
    ensures Ascending(names[..k] + [n] + names[k..])
    ensures forall m :: m in names[..k] + [n] + names[k..] <==> m in names || m == n
  {
    var front, back := names[..k], names[k..];
    assert names == front + back;
    ConcatAscends(front, [n]);
    ConcatAscends(front + [n], back);
  }

  lemma ConcatAscends(a: seq<Name>, b: seq<Name>)
    requires Ascending(a) && Ascending(b)
    requires forall i, j | 0 <= i < |a| && 0 <= j < |b| :: Less(a[i], b[j])
    ensures Ascending(a + b)
  {
  }

  lemma RemovalAscends(names: seq<Name>, k: nat)
    requires Ascending(names) && k < |names|
    ensures Ascending(names[..k] + names[k + 1..])
    ensures forall m :: m in names[..k] + names[k + 1..] <==> m in names && m != names[k]
  {
    var fewer := names[..k] + names[k + 1..];
    forall i | 0 <= i < |names| && i != k
      ensures names[i] != names[k] && names[i] in fewer
    {
      LessIsTotal(names[i], names[k]);
      assert names[i] == fewer[if i < k then i else i - 1];
    }
  }

  /** In an ascending list, the names the cursor has passed come first. */
  lemma PassedIsPrefix(cursor: Option<Name>, names: seq<Name>, start: nat)
    requires Ascending(names) && start <= |names|
    requires start < |names| ==> !Passed(cursor, names[start])
    ensures forall i | start <= i < |names| :: !Passed(cursor, names[i])
  {
    forall i | start < i < |names|
      ensures !Passed(cursor, names[i])
    {
      if cursor.Some? {
        LessIsTransitive(cursor.value, names[start], names[i]);
      }
    }
  }
}
