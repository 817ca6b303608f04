/** What becomes of a scan: every due job is fired, once, in the order of the fire times. */
module ScanRounds {
  import opened CronSchedule
  import opened JobTables
  import opened Scheduler

  /** What is fired: a job, for a slot. */
  datatype Slot = Slot(uuid: Uuid, at: Stamp)

  /** The slots an observer has seen fired, in order, dropped by the gate or not. */
  function SlotsFired(seen: seq<Observation>): seq<Slot> {
    if seen == [] then []
    else
      var n := |seen| - 1;
      SlotsFired(seen[..n]) + if seen[n].Fired? then [Slot(seen[n].uuid, seen[n].slot)] else []
  }

  /** The slots of a list of snapshots. */
  function SlotsOf(snaps: seq<Snapshot>): seq<Slot> {
    seq(|snaps|, i requires 0 <= i < |snaps| => Slot(snaps[i].job.uuid, snaps[i].job.nextFire))
  }

  /** The step is not the end of the round: no scan, no restart, no panic. */
  predicate StaysInRound(w: World, s: State, step: Step) {
    !step.event.Scan? && !step.event.Restart? && !Panics(s, step)
  }

  lemma {:induction false} FiredConcat(a: seq<Observation>, b: seq<Observation>)
    ensures SlotsFired(a + b) == SlotsFired(a) + SlotsFired(b)
    decreases |b|
  {
    if b == [] {
      assert a + b == a;
    } else {
      var n := |b| - 1;
      assert (a + b)[..|a + b| - 1] == a + b[..n];
      FiredConcat(a, b[..n]);
    }
  }

  lemma {:induction false} NoneFired(seen: seq<Observation>)
    requires forall o | o in seen :: !o.Fired?
    ensures SlotsFired(seen) == []
  {
    if seen != [] {
      NoneFired(seen[..|seen| - 1]);
    }
  }

  lemma GateFires(w: World, s: State, step: Step)
    requires Enabled(w, s, step) && step.event.Gate?
    ensures SlotsFired(Shown(s, step)) + SlotsOf(QueueAfter(s, step)) == SlotsOf(s.queue)
  {
    var shown := Shown(s, step);
    assert |shown| == 1 && shown[..0] == [];
    assert SlotsFired(shown) == [Slot(s.queue[0].job.uuid, s.queue[0].job.nextFire)];
    assert SlotsOf(s.queue) == [Slot(s.queue[0].job.uuid, s.queue[0].job.nextFire)] + SlotsOf(s.queue[1..]);
  }

  /** Nothing waiting is dropped, repeated or put in another order: what was fired and what waits is conserved. */
  lemma StepServes(w: World, s: State, step: Step)
    requires Enabled(w, s, step) && StaysInRound(w, s, step)
    ensures SlotsFired(s.seen + Shown(s, step)) + SlotsOf(QueueAfter(s, step)) == SlotsFired(s.seen) + SlotsOf(s.queue)
  {
    FiredConcat(s.seen, Shown(s, step));
    if step.event.Gate? {
      GateFires(w, s, step);
      var a, b, c := SlotsFired(s.seen), SlotsFired(Shown(s, step)), SlotsOf(QueueAfter(s, step));
      assert (a + b) + c == a + (b + c);
    } else {
      NoneFired(Shown(s, step));
      assert SlotsFired(s.seen) + [] == SlotsFired(s.seen);
    }
  }

  lemma {:induction false} RoundServes(w: World, s: State, steps: seq<Step>)
    requires IsRun(w, s, steps) && Along(w, s, steps, StaysInRound)
    ensures SlotsFired(Final(w, s, steps).seen) + SlotsOf(Final(w, s, steps).queue) == SlotsFired(s.seen) + SlotsOf(s.queue)
    ensures |Final(w, s, steps).queue| <= |s.queue|
    decreases |steps|
  {
    if steps != [] {
      StepServes(w, s, steps[0]);
      RoundServes(w, Next(w, s, steps[0]), steps[1..]);
    }
  }

  /**
   From a scan until the scheduler rests again, whatever calls run meanwhile, the slots fired are those of the enabled
   jobs that were due, each once, in the order of their times; at any moment before that, they are the first of them.
   */
  lemma RoundIsComplete(w: World, s: State, scan: Step, steps: seq<Step>)
    requires scan.event.Scan? && Enabled(w, s, scan)
    requires IsRun(w, Next(w, s, scan), steps) && Along(w, Next(w, s, scan), steps, StaysInRound)
    ensures var end := Final(w, Next(w, s, scan), steps);
            && SlotsFired(s.seen) <= SlotsFired(end.seen) <= SlotsFired(s.seen) + SlotsOf(scan.event.due)
            && (IsIdle(end) ==> SlotsFired(end.seen) == SlotsFired(s.seen) + SlotsOf(scan.event.due))
  {
    var first := Next(w, s, scan);
    assert s.seen + [] == s.seen;
    assert first.queue == scan.event.due && first.seen == s.seen;
    RoundServes(w, first, steps);
    var end := Final(w, first, steps);
    StillAhead(SlotsFired(s.seen), SlotsFired(end.seen), SlotsOf(end.queue), SlotsOf(scan.event.due));
  }

  lemma StillAhead(before: seq<Slot>, now: seq<Slot>, left: seq<Slot>, all: seq<Slot>)
    requires now + left == before + all && |left| <= |all|
    ensures before <= now <= before + all
    ensures left == [] ==> now == before + all
  {
    assert now == (before + all)[..|now|];
    assert left == [] ==> now + left == now;
  }
}
