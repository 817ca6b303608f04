/** What deletes and creates can do to the jobs the scheduler is about to fire, and what holds when they do not. */
module QueueIntegrity {
  import opened CronSchedule
  import opened JobTables
  import opened Scheduler
  import opened Identities
  import opened RateLimitTheorems

  predicate IsQueued(s: State, id: RowId) {
    exists i :: 0 <= i < |s.queue| && s.queue[i].id == id
  }

  predicate IsUnderWay(s: State, id: RowId) {
    IsQueued(s, id) || (IsFiring(s.current) && s.current.snap.id == id)
  }

  /** The step is a delete that finds the row of this id. */
  predicate Deletes(s: State, step: Step, id: RowId) {
    step.event.DeleteWrite? && step.event.target == id && Reaches(s, step.event.call, id)
  }

  /** A row stays, unless it is the one deleted. */
  lemma RowStays(w: World, s: State, step: Step, id: RowId)
    requires WellFormed(s) && Enabled(w, s, step) && id in s.tb.jobs && !Deletes(s, step, id)
    ensures HasRow(Next(w, s, step).tb, id, s.tb.jobs[id].uuid)
  {
    if step.event.Catchup? {
      CatchUpKeepsIdentity(w.lib, s.tb, step.event.due, step.event.start);
    }
  }

  lemma DeletedIsGone(w: World, s: State, step: Step, id: RowId)
    requires Enabled(w, s, step) && Deletes(s, step, id)
    ensures id !in Next(w, s, step).tb.jobs
    ensures Next(w, s, step).queue == s.queue && Next(w, s, step).current == s.current
  {
  }

  // ---------------------------------------------------------------------------
  // The fire cap without exceptions
  // ---------------------------------------------------------------------------

  /** Every job that waits to be fired still has its row. */
  ghost predicate QueuedPresent(s: State) {
    forall i | 0 <= i < |s.queue| :: HasRow(s.tb, s.queue[i].id, s.queue[i].job.uuid)
  }

  /** No delete reaches a job between its scan and its gate. */
  ghost predicate LeavesQueued(s: State, step: Step) {
    forall id | Deletes(s, step, id) :: !IsQueued(s, id)
  }

  /** Exactly those deletes leave a job to pass the gate without its log. */
  lemma StepPresent(w: World, s: State, step: Step)
    requires WellFormed(s) && QueuedPresent(s) && Enabled(w, s, step)
    ensures QueuedPresent(Next(w, s, step)) <==> LeavesQueued(s, step)
  {
    if LeavesQueued(s, step) {
      PresentStays(w, s, step);
    } else {
      var id :| Deletes(s, step, id) && IsQueued(s, id);
      DeletedIsGone(w, s, step, id);
    }
  }

  lemma PresentStays(w: World, s: State, step: Step)
    requires WellFormed(s) && QueuedPresent(s) && Enabled(w, s, step) && LeavesQueued(s, step)
    ensures QueuedPresent(Next(w, s, step))
  {
    var t := Next(w, s, step);
    forall i | 0 <= i < |t.queue|
      ensures HasRow(t.tb, t.queue[i].id, t.queue[i].job.uuid)
    {
      if !step.event.Scan? {
        var k :| 0 <= k < |s.queue| && s.queue[k] == t.queue[i];
        RowStays(w, s, step, s.queue[k].id);
      }
    }
  }

  /** The step neither deletes a waiting job nor stops the process in the middle of a fire past the gate. */
  ghost predicate KeepsLog(w: World, s: State, step: Step) {
    && LeavesQueued(s, step)
    && (step.event.Restart? && IsFiring(s.current) ==> s.current.raw == RateLimit)
  }

  ghost predicate NoneBlind(seen: seq<Observation>) {
    forall i | 0 <= i < |seen| :: (seen[i].Fired? ==> seen[i].live) && (seen[i].Lost? ==> !seen[i].passed)
  }

  lemma {:induction false} RunKeepsPresent(w: World, s: State, steps: seq<Step>)
    requires WellFormed(s) && QueuedPresent(s) && NoneBlind(s.seen) && IsRun(w, s, steps) && Along(w, s, steps, KeepsLog)
    ensures NoneBlind(Final(w, s, steps).seen)
    decreases |steps|
  {
    if steps != [] {
      StepKeepsWellFormed(w, s, steps[0]);
      StepPresent(w, s, steps[0]);
      assert NoneBlind(Next(w, s, steps[0]).seen);
      RunKeepsPresent(w, Next(w, s, steps[0]), steps[1..]);
    }
  }

  lemma {:induction false} NoneLost(seen: seq<Observation>, uuid: Uuid, lo: Instant, hi: Instant)
    requires NoneBlind(seen)
    ensures CountLost(seen, uuid, lo, hi) == 0
  {
    if seen != [] {
      NoneLost(seen[..|seen| - 1], uuid, lo, hi);
    }
  }

  /**
   On every run in which no job is deleted between its scan and its gate, and the process does not stop between a gate
   and the bookkeeping, no window of an hour holds more fires of a job past the gate than the cap.
   */
  lemma CapIsExact(w: World, s: State, steps: seq<Step>, uuid: Uuid, lo: Instant)
    requires Init(s) && IsRun(w, s, steps) && Along(w, s, steps, KeepsLog)
    ensures CountBetween(FireLimit, Final(w, s, steps).seen, uuid, lo, lo + HOUR) <= w.cfg.maxFires
  {
    var seen := Final(w, s, steps).seen;
    InitIsWellFormed(s);
    RunKeepsPresent(w, s, steps);
    FireCapHolds(w, s, steps, uuid, lo);
    NoGhosts(seen, uuid);
    NoneLost(seen, uuid, lo, lo + HOUR);
  }

  // ---------------------------------------------------------------------------
  // The life of the scheduler
  // ---------------------------------------------------------------------------

  /** The fire in progress is its job's last: the trigger has no occurrence after it. */
  predicate IsLastFire(w: World, c: Current) {
    c.Gated? && NextSlot(w, c).None?
  }

  /** The scheduler is alive, and the bookkeeping ahead of it will find the row it needs. */
  ghost predicate Survives(w: World, s: State) {
    s.current != Dead && (IsLastFire(w, s.current) ==> s.current.snap.id in s.tb.jobs)
  }

  /** No delete reaches a job during its last fire, and no last fire begins after its row has gone. */
  ghost predicate KeepsAlive(w: World, s: State, step: Step) {
    && (IsLastFire(w, s.current) ==> !Deletes(s, step, s.current.snap.id))
    && (step.event.Gate? && s.queue != [] ==>
          s.queue[0].id in s.tb.jobs || ComputeNext(w.lib, s.queue[0].job.trigger, step.now).Some?)
  }

  /** The condition is exact. */
  lemma StepSurvives(w: World, s: State, step: Step)
    requires WellFormed(s) && Survives(w, s) && Enabled(w, s, step)
    ensures Survives(w, Next(w, s, step)) <==> KeepsAlive(w, s, step)
  {
    if IsLastFire(w, s.current) {
      if Deletes(s, step, s.current.snap.id) {
        DeletedIsGone(w, s, step, s.current.snap.id);
      } else {
        RowStays(w, s, step, s.current.snap.id);
      }
    }
  }

  /** On every run that keeps to it, the scheduler never dies. */
  lemma {:induction false} SchedulerLives(w: World, s: State, steps: seq<Step>)
    requires WellFormed(s) && Survives(w, s) && IsRun(w, s, steps) && Along(w, s, steps, KeepsAlive)
    ensures Final(w, s, steps).current != Dead
    decreases |steps|
  {
    if steps != [] {
      StepKeepsWellFormed(w, s, steps[0]);
      StepSurvives(w, s, steps[0]);
      SchedulerLives(w, Next(w, s, steps[0]), steps[1..]);
    }
  }

  // ---------------------------------------------------------------------------
  // Row ids that are used again
  // ---------------------------------------------------------------------------

  /** The row under the snapshot's id, if there is one, is the snapshot's own job. */
  predicate IsOwn(s: State, snap: Snapshot) {
    snap.id in s.tb.jobs ==> s.tb.jobs[snap.id].uuid == snap.job.uuid
  }

  /** No job about to be fired has lost its row id to another. */
  ghost predicate NoTakeover(s: State) {
    && (forall i | 0 <= i < |s.queue| :: IsOwn(s, s.queue[i]))
    && (IsFiring(s.current) ==> IsOwn(s, s.current.snap))
  }

  /** The step does not create a job under the row id of one that is about to be fired. */
  predicate KeepsIds(w: World, s: State, step: Step) {
    !(step.event.Create? && Inserts(w, s, step) && IsUnderWay(s, step.event.id))
  }

  lemma OwnStays(w: World, s: State, step: Step, snap: Snapshot)
    requires WellFormed(s) && Enabled(w, s, step) && SnapOk(s, snap) && IsOwn(s, snap)
    requires step.event.Create? && Inserts(w, s, step) ==> step.event.id != snap.id
    ensures IsOwn(Next(w, s, step), snap)
  {
    StepEvolves(w, s, step);
    if step.event.Catchup? {
      CatchUpKeepsIdentity(w.lib, s.tb, step.event.due, step.event.start);
    }
  }

  lemma NoTakeoverStays(w: World, s: State, step: Step)
    requires WellFormed(s) && NoTakeover(s) && Enabled(w, s, step) && KeepsIds(w, s, step)
    ensures NoTakeover(Next(w, s, step))
  {
    var t := Next(w, s, step);
    forall i | 0 <= i < |t.queue|
      ensures IsOwn(t, t.queue[i])
    {
      if !step.event.Scan? {
        var k :| 0 <= k < |s.queue| && s.queue[k] == t.queue[i];
        OwnStays(w, s, step, s.queue[k]);
      }
    }
    if IsFiring(t.current) {
      OwnStays(w, s, step, t.current.snap);
    }
  }

  lemma TakeoverHappens(w: World, s: State, step: Step)
    requires WellFormed(s) && Enabled(w, s, step) && !KeepsIds(w, s, step)
    ensures !NoTakeover(Next(w, s, step))
  {
    var t, id := Next(w, s, step), step.event.id;
    assert id in t.tb.jobs && t.tb.jobs[id].uuid == step.event.uuid && step.event.uuid !in s.used;
    if IsQueued(s, id) {
      var i :| 0 <= i < |s.queue| && s.queue[i].id == id;
      assert SnapOk(s, s.queue[i]) && t.queue[i] == s.queue[i];
    } else {
      assert SnapOk(s, s.current.snap) && t.current == s.current;
    }
  }

  /** A row id changes hands under a fire exactly when a create takes it. */
  lemma StepTakeover(w: World, s: State, step: Step)
    requires WellFormed(s) && NoTakeover(s) && Enabled(w, s, step)
    ensures NoTakeover(Next(w, s, step)) <==> KeepsIds(w, s, step)
  {
    if KeepsIds(w, s, step) {
      NoTakeoverStays(w, s, step);
    } else {
      TakeoverHappens(w, s, step);
    }
  }

  ghost predicate AllOwn(seen: seq<Observation>) {
    forall i | 0 <= i < |seen| && seen[i].Reported? :: seen[i].own
  }

  lemma {:induction false} RunKeepsIds(w: World, s: State, steps: seq<Step>)
    requires WellFormed(s) && NoTakeover(s) && AllOwn(s.seen) && IsRun(w, s, steps) && Along(w, s, steps, KeepsIds)
    ensures NoTakeover(Final(w, s, steps)) && AllOwn(Final(w, s, steps).seen)
    decreases |steps|
  {
    if steps != [] {
      StepKeepsWellFormed(w, s, steps[0]);
      StepTakeover(w, s, steps[0]);
      assert AllOwn(Next(w, s, steps[0]).seen);
      RunKeepsIds(w, Next(w, s, steps[0]), steps[1..]);
    }
  }

  lemma ReportsLandAtHome(w: World, s: State, steps: seq<Step>, i: nat)
    requires Init(s) && IsRun(w, s, steps) && AllOwn(Final(w, s, steps).seen)
    requires i < |Final(w, s, steps).seen| && Final(w, s, steps).seen[i].Reported?
    ensures var seen := Final(w, s, steps).seen;
            seen[i].own && CountBetween(ReportLimit, seen[..i + 1], seen[i].uuid, seen[i].at - HOUR, seen[i].at) <= w.cfg.maxReports
  {
    ReportCapHolds(w, s, steps, i);
  }

  /**
   On every run in which no create takes the row id of a job about to be fired, every bookkeeping finds its own job's
   row or none, every report is about the job it is booked on, and the report cap holds without exception.
   */
  lemma FiresLandAtHome(w: World, s: State, steps: seq<Step>, i: nat)
    requires Init(s) && IsRun(w, s, steps) && Along(w, s, steps, KeepsIds)
    ensures IsFiring(Final(w, s, steps).current) ==> IsOwn(Final(w, s, steps), Final(w, s, steps).current.snap)
    ensures var seen := Final(w, s, steps).seen;
            i < |seen| && seen[i].Reported? ==>
              seen[i].own && CountBetween(ReportLimit, seen[..i + 1], seen[i].uuid, seen[i].at - HOUR, seen[i].at) <= w.cfg.maxReports
  {
    InitIsWellFormed(s);
    RunKeepsIds(w, s, steps);
    if i < |Final(w, s, steps).seen| && Final(w, s, steps).seen[i].Reported? {
      ReportsLandAtHome(w, s, steps, i);
    }
  }
}
