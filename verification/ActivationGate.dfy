/** The gate both hosts ask whether an instance should run: a mount is owed, or a port is ready. */
module ActivationGate {
  import opened Options

  datatype MountDebt = Unwired | Owed | Settled

  datatype PortReadiness = PortReadiness(allowed: bool, pushEnabled: bool, deliverable: bool) {
    predicate IsReady() {
      allowed && pushEnabled && deliverable
    }
  }

  datatype Wake = Mount | Delivery | Sync

  predicate AnyReady(ports: seq<PortReadiness>) {
    exists i :: 0 <= i < |ports| && ports[i].IsReady()
  }

  /** Some port is allowed, wakes its instance, and is behind something its channel holds. */
  predicate HasOwedPort(ports: seq<PortReadiness>) {
    exists i :: 0 <= i < |ports| && ports[i].allowed && ports[i].pushEnabled && ports[i].deliverable
  }

  function Readiness(mount: MountDebt, anyPortReady: bool): Option<Wake> {
    if mount == Owed then Some(Mount)
    else if anyPortReady then Some(Delivery)
    else None
  }

  /** The gate: a mount if one is owed, else a delivery if some port is owed something, else nothing. */
  lemma GateIsExact(mount: MountDebt, ports: seq<PortReadiness>)
    ensures Readiness(mount, AnyReady(ports)) == Some(Mount) <==> mount == Owed
    ensures Readiness(mount, AnyReady(ports)) == Some(Delivery) <==> mount != Owed && HasOwedPort(ports)
    ensures Readiness(mount, AnyReady(ports)) == None <==> mount != Owed && !HasOwedPort(ports)
  {
    if AnyReady(ports) {
      var i :| 0 <= i < |ports| && ports[i].IsReady();
      assert ports[i].allowed;
    }
    if HasOwedPort(ports) {
      var i :| 0 <= i < |ports| && ports[i].allowed && ports[i].pushEnabled && ports[i].deliverable;
      assert ports[i].IsReady();
    }
  }
}
