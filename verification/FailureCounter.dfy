/** The count of consecutive failures, and the automatic disabling it drives. */
module FailureCounter {
  import opened Options
  import opened CronSchedule
  import opened JobTables
  import opened CatchUp
  import opened Scheduler
  import opened Identities
  import opened QueueIntegrity

  /** An enabled job is below the threshold; a job that was disabled automatically is disabled. */
  predicate RowFair(cfg: Config, row: Job) {
    && (row.enabled ==> row.failures < cfg.failuresToDisable)
    && (row.autoDisabledAt.Some? ==> !row.enabled)
  }

  ghost predicate AllFair(w: World, s: State) {
    forall id | id in s.tb.jobs :: RowFair(w.cfg, s.tb.jobs[id])
  }

  /**
   Exactly when a step keeps this: an edit that leaves a job enabled without forgiving its failures must find the
   row below the threshold and not disabled automatically.
   */
  predicate KeepsFair(w: World, s: State, step: Step) {
    step.event.EditWrite? && step.event.call in s.calls && s.calls[step.event.call].EditCall? ==>
      var call, id := s.calls[step.event.call], step.event.target;
      HasRow(s.tb, id, call.read.uuid) && call.plan.enabled && !call.plan.reset ==>
        s.tb.jobs[id].failures < w.cfg.failuresToDisable && s.tb.jobs[id].autoDisabledAt.None?
  }

  lemma {:induction false} CatchUpIsFair(cfg: Config, lib: CronLib, tb: Tables, due: seq<Snapshot>, now: Instant)
    requires forall id | id in tb.jobs :: RowFair(cfg, tb.jobs[id])
    ensures forall id | id in CatchUpAll(lib, tb, due, now).jobs :: RowFair(cfg, CatchUpAll(lib, tb, due, now).jobs[id])
    decreases |due|
  {
    if due != [] {
      CatchUpIsFair(cfg, lib, CatchUpOne(lib, tb, due[0], now), due[1..], now);
    }
  }

  lemma FiredRowIsFair(cfg: Config, row: Job, snap: Snapshot, fireTs: Instant, now: Instant, raw: Outcome, next: Stamp)
    requires RowFair(cfg, row) && cfg.failuresToDisable >= 1
    ensures RowFair(cfg, FiredRow(cfg, row, snap, fireTs, now, raw, next))
  {
  }

  lemma EditFair(w: World, s: State, step: Step)
    requires w.cfg.failuresToDisable >= 1 && AllFair(w, s) && Enabled(w, s, step) && step.event.EditWrite?
    ensures AllFair(w, Next(w, s, step)) <==> KeepsFair(w, s, step)
  {
    var call, id, t := s.calls[step.event.call], step.event.target, Next(w, s, step);
    if HasRow(s.tb, id, call.read.uuid) {
      assert RowFair(w.cfg, t.tb.jobs[id]) <==> KeepsFair(w, s, step);
      assert forall k | k in t.tb.jobs && k != id :: t.tb.jobs[k] == s.tb.jobs[k];
    }
  }

  /** The condition is exact. */
  lemma StepFair(w: World, s: State, step: Step)
    requires w.cfg.failuresToDisable >= 1 && AllFair(w, s) && Enabled(w, s, step)
    ensures AllFair(w, Next(w, s, step)) <==> KeepsFair(w, s, step)
  {
    match step.event
    case EditWrite(_, _) => EditFair(w, s, step);
    case Commit =>
      var c := s.current;
      if c.snap.id in s.tb.jobs {
        FiredRowIsFair(w.cfg, s.tb.jobs[c.snap.id], c.snap, c.fireTs, c.now, c.raw, c.next);
      }
    case Catchup(start, due) => CatchUpIsFair(w.cfg, w.lib, s.tb, due, start);
    case _ =>
  }

  /** An edit whose row has kept its enabled flag since the edit read it. */
  predicate AtomicEdits(w: World, s: State, step: Step) {
    step.event.EditWrite? && step.event.call in s.calls && s.calls[step.event.call].EditCall? ==>
      var call, id := s.calls[step.event.call], step.event.target;
      HasRow(s.tb, id, call.read.uuid) ==> s.tb.jobs[id].enabled == call.read.enabled
  }

  /** An edit's plan forgives failures exactly when it enables a job it read as disabled. */
  ghost predicate ResetsOk(s: State) {
    forall c | c in s.calls && s.calls[c].EditCall? ::
      s.calls[c].plan.reset <==> s.calls[c].plan.enabled && !s.calls[c].read.enabled
  }

  lemma StepKeepsResets(w: World, s: State, step: Step)
    requires ResetsOk(s) && Enabled(w, s, step)
    ensures ResetsOk(Next(w, s, step))
  {
  }

  /**
   With a threshold of at least one and edits that are not interleaved with a change of the enabled flag, in every
   state reached an enabled job has fewer failures than the threshold, and an automatically disabled job is disabled.
   */
  lemma {:induction false} FailureThresholdHolds(w: World, s: State, steps: seq<Step>)
    requires w.cfg.failuresToDisable >= 1 && AllFair(w, s) && ResetsOk(s)
    requires IsRun(w, s, steps) && Along(w, s, steps, AtomicEdits)
    ensures AllFair(w, Final(w, s, steps))
    decreases |steps|
  {
    if steps != [] {
      assert KeepsFair(w, s, steps[0]);
      StepFair(w, s, steps[0]);
      StepKeepsResets(w, s, steps[0]);
      FailureThresholdHolds(w, Next(w, s, steps[0]), steps[1..]);
    }
  }

  /** When the engine acts in a step: the moment it writes down. */
  function WhenWritten(s: State, step: Step): Instant {
    match step.event
    case Commit => if s.current.Decided? then s.current.now else step.now
    case Catchup(start, _) => start
    case _ => step.now
  }

  /** Every job the engine disables carries the moment it was disabled; only an edit disables without. */
  lemma DisablingIsMarked(w: World, s: State, step: Step, id: RowId)
    requires WellFormed(s) && Enabled(w, s, step) && id in s.tb.jobs && id in Next(w, s, step).tb.jobs
    requires s.tb.jobs[id].enabled && !Next(w, s, step).tb.jobs[id].enabled && !step.event.EditWrite?
    ensures Next(w, s, step).tb.jobs[id].autoDisabledAt == Some(WhenWritten(s, step) / 1_000_000_000)
  {
    if step.event.Catchup? {
      CatchUpRows(w.lib, s.tb, step.event.due, step.event.start, id);
    }
  }

  /** A fire disables its job exactly when it failed and its failures, with those it was scanned with, reach the threshold. */
  lemma FireDisablesExactly(w: World, s: State, step: Step)
    requires Enabled(w, s, step) && step.event.Commit? && s.current.snap.id in s.tb.jobs && s.tb.jobs[s.current.snap.id].enabled
    ensures var c, row := s.current, Next(w, s, step).tb.jobs[s.current.snap.id];
            !row.enabled <==> c.raw != Ok && c.snap.job.failures + 1 >= w.cfg.failuresToDisable
  {
  }

  // ---------------------------------------------------------------------------
  // What the counter counts
  // ---------------------------------------------------------------------------

  /** Failed fires of a job since its last success or re-enabling; if there was neither, on top of what it started with. */
  function FailureRun(seen: seq<Observation>, uuid: Uuid, start: int): int {
    if seen == [] then start
    else
      var front, o := seen[..|seen| - 1], seen[|seen| - 1];
      if o.uuid != uuid then FailureRun(front, uuid, start)
      else if o.Reenabled? || (o.Booked? && o.ok) then 0
      else if o.Booked? then FailureRun(front, uuid, start) + 1
      else FailureRun(front, uuid, start)
  }

  ghost predicate CounterOk(s: State, start: Uuid -> int) {
    && (forall id | id in s.tb.jobs :: s.tb.jobs[id].failures == FailureRun(s.seen, s.tb.jobs[id].uuid, start(s.tb.jobs[id].uuid)))
    && (forall u | u !in s.used :: start(u) == 0)
    && WellFormed(s)
  }

  /** Exactly when a step keeps this: a failed fire is booked on a row that still has the failures it was scanned with. */
  predicate KeepsCount(w: World, s: State, step: Step) {
    step.event.Commit? && s.current.Decided? && s.current.snap.id in s.tb.jobs ==>
      var c, row := s.current, s.tb.jobs[s.current.snap.id];
      if row.uuid == c.snap.job.uuid then c.raw == Ok || row.failures == c.snap.job.failures
      else row.failures == NewFailures(c.snap, c.raw)
  }

  lemma RunSnoc(seen: seq<Observation>, o: Observation, uuid: Uuid, start: int)
    ensures FailureRun(seen + [o], uuid, start) ==
            if o.uuid != uuid then FailureRun(seen, uuid, start)
            else if o.Reenabled? || (o.Booked? && o.ok) then 0
            else if o.Booked? then FailureRun(seen, uuid, start) + 1
            else FailureRun(seen, uuid, start)
  {
    assert (seen + [o])[..|seen|] == seen;
  }

  lemma {:induction false} RunOfStranger(seen: seq<Observation>, uuid: Uuid, start: int)
    requires forall i | 0 <= i < |seen| :: seen[i].uuid != uuid
    ensures FailureRun(seen, uuid, start) == start
  {
    if seen != [] {
      RunOfStranger(seen[..|seen| - 1], uuid, start);
    }
  }

  lemma RunOfCommit(c: Current, own: bool, seen: seq<Observation>, uuid: Uuid, start: int)
    requires c.Decided?
    ensures FailureRun(seen + CommitNotes(c, own), uuid, start) ==
            if uuid != c.snap.job.uuid then FailureRun(seen, uuid, start)
            else if c.raw == Ok then 0 else FailureRun(seen, uuid, start) + 1
  {
    var booked, report := Booked(c.snap.job.uuid, c.raw == Ok), Reported(c.snap.job.uuid, c.fireTs, c.now, own);
    RunSnoc(seen, booked, uuid, start);
    if c.emit {
      RunSnoc(seen + [booked], report, uuid, start);
      assert seen + [booked, report] == (seen + [booked]) + [report];
    }
  }

  lemma {:induction false} CatchUpKeepsFailures(lib: CronLib, tb: Tables, due: seq<Snapshot>, now: Instant, id: RowId)
    requires id in tb.jobs
    ensures id in CatchUpAll(lib, tb, due, now).jobs
    ensures CatchUpAll(lib, tb, due, now).jobs[id].failures == tb.jobs[id].failures
    ensures CatchUpAll(lib, tb, due, now).jobs[id].uuid == tb.jobs[id].uuid
    decreases |due|
  {
    if due != [] {
      CatchUpKeepsFailures(lib, CatchUpOne(lib, tb, due[0], now), due[1..], now, id);
    }
  }

  lemma CommitCount(start: Uuid -> int, w: World, s: State, step: Step)
    requires CounterOk(s, start) && Enabled(w, s, step) && step.event.Commit?
    ensures var t := Next(w, s, step);
            (forall id | id in t.tb.jobs :: t.tb.jobs[id].failures == FailureRun(t.seen, t.tb.jobs[id].uuid, start(t.tb.jobs[id].uuid)))
            <==> KeepsCount(w, s, step)
  {
    var c, t := s.current, Next(w, s, step);
    if c.snap.id in s.tb.jobs {
      var id, own := c.snap.id, HasRow(s.tb, c.snap.id, c.snap.job.uuid);
      RunOfCommit(c, own, s.seen, s.tb.jobs[id].uuid, start(s.tb.jobs[id].uuid));
      assert (t.tb.jobs[id].failures == FailureRun(t.seen, t.tb.jobs[id].uuid, start(t.tb.jobs[id].uuid))) <==> KeepsCount(w, s, step);
      forall k | k in t.tb.jobs && k != id
        ensures t.tb.jobs[k].failures == FailureRun(t.seen, t.tb.jobs[k].uuid, start(t.tb.jobs[k].uuid))
      {
        RunOfCommit(c, own, s.seen, s.tb.jobs[k].uuid, start(s.tb.jobs[k].uuid));
        assert s.tb.jobs[k].uuid == c.snap.job.uuid ==> HasRow(s.tb, k, c.snap.job.uuid);
      }
    } else {
      assert t.seen == s.seen;
    }
  }

  lemma QuietCount(start: Uuid -> int, w: World, s: State, step: Step, id: RowId)
    requires CounterOk(s, start) && Enabled(w, s, step) && !step.event.Commit?
    requires id in Next(w, s, step).tb.jobs
    ensures var t := Next(w, s, step);
            t.tb.jobs[id].failures == FailureRun(t.seen, t.tb.jobs[id].uuid, start(t.tb.jobs[id].uuid))
  {
    var t := Next(w, s, step);
    StepEvolves(w, s, step);
    if IsNew(s, t, id) {
      NewRowCount(start, w, s, step, id);
    } else {
      var uuid := s.tb.jobs[id].uuid;
      assert s.seen + [] == s.seen;
      match step.event
      case EditWrite(_, _) => EditCount(start, w, s, step, id);
      case Gate(_) => RunSnoc(s.seen, Shown(s, step)[0], uuid, start(uuid));
      case Catchup(start, due) => CatchUpKeepsFailures(w.lib, s.tb, due, start, id);
      case _ =>
    }
  }

  lemma NewRowCount(start: Uuid -> int, w: World, s: State, step: Step, id: RowId)
    requires CounterOk(s, start) && Enabled(w, s, step)
    requires id in Next(w, s, step).tb.jobs && IsNew(s, Next(w, s, step), id)
    ensures var t := Next(w, s, step);
            t.tb.jobs[id].failures == FailureRun(t.seen, t.tb.jobs[id].uuid, start(t.tb.jobs[id].uuid)) == 0
  {
    var t := Next(w, s, step);
    OnlyCreateAdds(w, s, step);
    assert t.seen == s.seen;
    RunOfStranger(s.seen, t.tb.jobs[id].uuid, start(t.tb.jobs[id].uuid));
  }

  lemma EditCount(start: Uuid -> int, w: World, s: State, step: Step, id: RowId)
    requires CounterOk(s, start) && Enabled(w, s, step) && step.event.EditWrite? && id in s.tb.jobs
    ensures var t := Next(w, s, step);
            id in t.tb.jobs && t.tb.jobs[id].failures == FailureRun(t.seen, t.tb.jobs[id].uuid, start(t.tb.jobs[id].uuid))
  {
    var uuid := s.calls[step.event.call].read.uuid;
    RunSnoc(s.seen, Reenabled(uuid), s.tb.jobs[id].uuid, start(s.tb.jobs[id].uuid));
    assert s.seen + [] == s.seen;
    assert s.tb.jobs[id].uuid == uuid ==> HasRow(s.tb, id, uuid);
  }

  /** The condition is exact. */
  lemma StepCount(start: Uuid -> int, w: World, s: State, step: Step)
    requires CounterOk(s, start) && Enabled(w, s, step)
    ensures CounterOk(Next(w, s, step), start) <==> KeepsCount(w, s, step)
  {
    var t := Next(w, s, step);
    StepKeepsWellFormed(w, s, step);
    if step.event.Commit? {
      CommitCount(start, w, s, step);
    } else {
      forall id | id in t.tb.jobs
        ensures t.tb.jobs[id].failures == FailureRun(t.seen, t.tb.jobs[id].uuid, start(t.tb.jobs[id].uuid))
      {
        QuietCount(start, w, s, step, id);
      }
    }
  }

  /** The failures a job starts a run with; a job created later starts with none. */
  ghost function FailuresAt(s: State, uuid: Uuid): int {
    if exists id :: HasRow(s.tb, id, uuid) then var id :| HasRow(s.tb, id, uuid); s.tb.jobs[id].failures else 0
  }

  /**
   Along every run in which no failed fire is booked over a change of the counter since its scan, a job's counter is its
   number of failed fires since its last success or re-enabling, on top of what it started with if there was neither.
   */
  lemma CounterCountsFailures(w: World, s: State, steps: seq<Step>)
    requires Init(s) && IsRun(w, s, steps) && Along(w, s, steps, KeepsCount)
    ensures var t := Final(w, s, steps);
            forall id | id in t.tb.jobs :: t.tb.jobs[id].failures == FailureRun(t.seen, t.tb.jobs[id].uuid, FailuresAt(s, t.tb.jobs[id].uuid))
  {
    InitIsCounted(s);
    RunKeepsCount(u => FailuresAt(s, u), w, s, steps);
  }

  lemma InitIsCounted(s: State)
    requires Init(s)
    ensures CounterOk(s, u => FailuresAt(s, u))
  {
    InitIsWellFormed(s);
    forall id | id in s.tb.jobs
      ensures FailuresAt(s, s.tb.jobs[id].uuid) == s.tb.jobs[id].failures
    {
      assert HasRow(s.tb, id, s.tb.jobs[id].uuid);
    }
  }

  lemma {:induction false} RunKeepsCount(start: Uuid -> int, w: World, s: State, steps: seq<Step>)
    requires CounterOk(s, start) && IsRun(w, s, steps) && Along(w, s, steps, KeepsCount)
    ensures CounterOk(Final(w, s, steps), start)
    decreases |steps|
  {
    if steps != [] {
      StepCount(start, w, s, steps[0]);
      RunKeepsCount(start, w, Next(w, s, steps[0]), steps[1..]);
    }
  }

  // ---------------------------------------------------------------------------
  // The condition in terms of what apps do
  // ---------------------------------------------------------------------------

  /** No edit reaches a job that is about to be fired or firing, and no create takes its row id. */
  predicate LeavesUnderWay(w: World, s: State, step: Step) {
    && KeepsIds(w, s, step)
    && (step.event.EditWrite? && Reaches(s, step.event.call, step.event.target) ==> !IsUnderWay(s, step.event.target))
  }

  /** The snapshot's job, if it is still there, has the failures it was scanned with. */
  predicate IsCurrent(s: State, snap: Snapshot) {
    HasRow(s.tb, snap.id, snap.job.uuid) ==> s.tb.jobs[snap.id].failures == snap.job.failures
  }

  ghost predicate AllCurrent(s: State) {
    && WellFormed(s) && NoTakeover(s)
    && (forall i | 0 <= i < |s.queue| :: IsCurrent(s, s.queue[i]))
    && (IsFiring(s.current) ==> IsCurrent(s, s.current.snap))
  }

  lemma CurrentStays(w: World, s: State, step: Step, snap: Snapshot)
    requires WellFormed(s) && Enabled(w, s, step) && SnapOk(s, snap) && IsCurrent(s, snap) && IsUnderWay(s, snap.id)
    requires LeavesUnderWay(w, s, step) && !(step.event.Commit? && s.current.snap.id == snap.id) && !step.event.Catchup?
    ensures IsCurrent(Next(w, s, step), snap)
  {
    var t := Next(w, s, step);
    StepEvolves(w, s, step);
    if HasRow(t.tb, snap.id, snap.job.uuid) {
      RowWasThere(s, t, snap.id, snap.job.uuid);
    }
  }

  /** The bookkeeping of a fire is on its own job's row, so it leaves every waiting job's row alone. */
  lemma WaitingStays(w: World, s: State, step: Step, i: nat)
    requires AllCurrent(s) && Enabled(w, s, step) && LeavesUnderWay(w, s, step) && i < |s.queue|
    ensures IsCurrent(Next(w, s, step), s.queue[i])
  {
    var snap := s.queue[i];
    assert IsQueued(s, snap.id) && SnapOk(s, snap) && IsOwn(s, snap);
    if step.event.Commit? && s.current.snap.id == snap.id {
      assert snap.id !in s.tb.jobs;
    } else {
      CurrentStays(w, s, step, snap);
    }
  }

  lemma StepKeepsCurrent(w: World, s: State, step: Step)
    requires AllCurrent(s) && Enabled(w, s, step) && LeavesUnderWay(w, s, step)
    ensures AllCurrent(Next(w, s, step)) && KeepsCount(w, s, step)
  {
    var t := Next(w, s, step);
    StepKeepsWellFormed(w, s, step);
    StepTakeover(w, s, step);
    forall i | 0 <= i < |t.queue|
      ensures IsCurrent(t, t.queue[i])
    {
      if !step.event.Scan? {
        var k :| 0 <= k < |s.queue| && s.queue[k] == t.queue[i];
        WaitingStays(w, s, step, k);
      }
    }
    if IsFiring(t.current) {
      if step.event.Gate? {
        WaitingStays(w, s, step, 0);
      } else {
        CurrentStays(w, s, step, s.current.snap);
      }
    }
  }

  lemma {:induction false} UntouchedRunsCount(w: World, s: State, steps: seq<Step>)
    requires AllCurrent(s) && IsRun(w, s, steps) && Along(w, s, steps, LeavesUnderWay)
    ensures Along(w, s, steps, KeepsCount)
    decreases |steps|
  {
    if steps != [] {
      StepKeepsCurrent(w, s, steps[0]);
      UntouchedRunsCount(w, Next(w, s, steps[0]), steps[1..]);
    }
  }

  /** So on every run in which apps leave the jobs under way alone, every counter is its job's run of failures. */
  lemma UntouchedCountersCount(w: World, s: State, steps: seq<Step>)
    requires Init(s) && IsRun(w, s, steps) && Along(w, s, steps, LeavesUnderWay)
    ensures var t := Final(w, s, steps);
            forall id | id in t.tb.jobs :: t.tb.jobs[id].failures == FailureRun(t.seen, t.tb.jobs[id].uuid, FailuresAt(s, t.tb.jobs[id].uuid))
  {
    InitIsWellFormed(s);
    UntouchedRunsCount(w, s, steps);
    CounterCountsFailures(w, s, steps);
  }
}
