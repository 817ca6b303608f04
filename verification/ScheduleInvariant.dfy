/** Every job's next fire time is an occurrence of its trigger, later than its last fire. */
module ScheduleInvariant {
  import opened Options
  import opened CronSchedule
  import opened JobTables
  import opened CatchUp
  import opened Scheduler
  import opened Identities

  predicate OnSchedule(lib: CronLib, row: Job) {
    IsOccurrence(lib, row.trigger, row.nextFire) && Anchor(row) < row.nextFire
  }

  ghost predicate AllOnSchedule(w: World, s: State) {
    forall id | id in s.tb.jobs :: OnSchedule(w.lib, s.tb.jobs[id]) && FromDb(s.tb.jobs[id].createdAt) <= s.clock
  }

  /** An edit under way will write a fire time that its own trigger has, later than the last fire it read. */
  ghost predicate PlanOk(w: World, c: Call) {
    c.EditCall? ==> IsOccurrence(w.lib, c.plan.trigger, c.plan.nextFire) && Anchor(c.read) < c.plan.nextFire
  }

  ghost predicate PlansOk(w: World, s: State) {
    forall c | c in s.calls :: PlanOk(w, s.calls[c])
  }

  /** A decided fire carries the next occurrence of the snapshot's trigger. */
  ghost predicate NextOk(w: World, s: State) {
    s.current.Decided? ==>
      ComputeNext(w.lib, s.current.snap.job.trigger, s.current.fireTs) == Some(s.current.next)
  }

  ghost predicate ScheduleOk(w: World, s: State) {
    WellFormed(s) && AllOnSchedule(w, s) && PlansOk(w, s) && NextOk(w, s)
  }

  /**
   Exactly when a step leaves every job on schedule: an edit's fire time must still be ahead of the row's last
   fire when it is written, and a fire's next time must be an occurrence of the trigger the row has by then.
   */
  predicate KeepsSchedule(w: World, s: State, step: Step) {
    match step.event
    case EditWrite(call, target) =>
      call in s.calls && s.calls[call].EditCall? && HasRow(s.tb, target, s.calls[call].read.uuid) ==>
        Anchor(s.tb.jobs[target]) < s.calls[call].plan.nextFire
    case Commit =>
      s.current.Decided? && s.current.snap.id in s.tb.jobs ==>
        IsOccurrence(w.lib, s.tb.jobs[s.current.snap.id].trigger, s.current.next)
    case _ => true
  }

  // ---------------------------------------------------------------------------
  // One step
  // ---------------------------------------------------------------------------

  lemma CreateIsOnSchedule(w: World, caller: App, req: CreateReq, uuid: Uuid, env: Standing, now: Instant)
    requires PlanCreate(w.lib, caller, req, uuid, env, now).Fine?
    ensures var row := PlanCreate(w.lib, caller, req, uuid, env, now).value;
            OnSchedule(w.lib, row) && FromDb(row.createdAt) <= now
  {
    ComputeNextIsLeast(w.lib, req.trigger, now);
  }

  /** A fire moves the schedule past itself. */
  lemma FireIsOnSchedule(w: World, snap: Snapshot, fireTs: Instant, next: Stamp)
    requires ComputeNext(w.lib, snap.job.trigger, fireTs) == Some(next)
    ensures IsOccurrence(w.lib, snap.job.trigger, next) && ToDb(fireTs) < next && fireTs < FromDb(next)
  {
    ComputeNextIsLeast(w.lib, snap.job.trigger, fireTs);
  }

  lemma CaughtUpIsOnSchedule(lib: CronLib, row: Job, now: Instant)
    requires OnSchedule(lib, row) && FromDb(row.createdAt) <= now
    ensures OnSchedule(lib, CaughtUpRow(lib, row, row, now))
  {
    ComputeNextIsLeast(lib, row.trigger, now);
    LastUpToIsGreatest(lib, row.trigger, FromDb(Anchor(row)), now);
  }

  lemma {:induction false} CatchUpIsOnSchedule(lib: CronLib, tb: Tables, due: seq<Snapshot>, now: Instant)
    requires Pending(tb, due)
    requires forall id | id in tb.jobs :: OnSchedule(lib, tb.jobs[id]) && FromDb(tb.jobs[id].createdAt) <= now
    ensures forall id | id in CatchUpAll(lib, tb, due, now).jobs :: OnSchedule(lib, CatchUpAll(lib, tb, due, now).jobs[id])
    decreases |due|
  {
    if due != [] {
      CaughtUpIsOnSchedule(lib, due[0].job, now);
      var next := CatchUpOne(lib, tb, due[0], now);
      assert forall i | 0 <= i < |due[1..]| :: due[1..][i] == due[i + 1];
      CatchUpIsOnSchedule(lib, next, due[1..], now);
    }
  }

  lemma PlanIsOk(w: World, caller: App, row: Job, req: EditReq, env: Standing, now: Instant)
    requires OnSchedule(w.lib, row) && FromDb(row.createdAt) <= now
    requires PlanEdit(w.lib, caller, row, req, env, now).Fine?
    ensures PlanOk(w, EditCall(caller, row, PlanEdit(w.lib, caller, row, req, env, now).value))
  {
    if req.trigger.Some? {
      ComputeNextIsLeast(w.lib, req.trigger.value, EditAnchor(row, now));
    }
  }

  lemma StepKeepsPlans(w: World, s: State, step: Step)
    requires ScheduleOk(w, s) && Enabled(w, s, step)
    ensures PlansOk(w, Next(w, s, step)) && NextOk(w, Next(w, s, step))
  {
    var t := Next(w, s, step);
    if step.event.EditRead? && t.calls != s.calls {
      var e := step.event;
      PlanIsOk(w, e.caller, s.tb.jobs[e.target], e.edit, e.env, step.now);
    }
    forall c | c in t.calls
      ensures PlanOk(w, t.calls[c])
    {
      assert c in s.calls ==> PlanOk(w, s.calls[c]);
    }
  }

  /** A commit keeps its row on schedule exactly when the row's trigger has the new fire time. */
  lemma CommitSchedule(w: World, s: State, step: Step)
    requires ScheduleOk(w, s) && Enabled(w, s, step) && step.event.Commit?
    ensures AllOnSchedule(w, Next(w, s, step)) <==> KeepsSchedule(w, s, step)
  {
    var c, t := s.current, Next(w, s, step);
    FireIsOnSchedule(w, c.snap, c.fireTs, c.next);
    if c.snap.id in s.tb.jobs {
      var id := c.snap.id;
      assert OnSchedule(w.lib, t.tb.jobs[id]) <==> KeepsSchedule(w, s, step);
      assert forall k | k in t.tb.jobs && k != id :: t.tb.jobs[k] == s.tb.jobs[k];
    }
  }

  /** An edit keeps its row on schedule exactly when its fire time is still ahead of the row's last fire. */
  lemma EditSchedule(w: World, s: State, step: Step)
    requires ScheduleOk(w, s) && Enabled(w, s, step) && step.event.EditWrite?
    ensures AllOnSchedule(w, Next(w, s, step)) <==> KeepsSchedule(w, s, step)
  {
    var call, id, t := s.calls[step.event.call], step.event.target, Next(w, s, step);
    assert PlanOk(w, call);
    if HasRow(s.tb, id, call.read.uuid) {
      assert OnSchedule(w.lib, t.tb.jobs[id]) <==> KeepsSchedule(w, s, step);
      assert forall k | k in t.tb.jobs && k != id :: t.tb.jobs[k] == s.tb.jobs[k];
    }
  }

  lemma OtherSchedule(w: World, s: State, step: Step)
    requires ScheduleOk(w, s) && Enabled(w, s, step) && !step.event.Commit? && !step.event.EditWrite?
    ensures AllOnSchedule(w, Next(w, s, step))
  {
    match step.event
    case Create(_, _, _, _, _) => CreateSchedule(w, s, step);
    case Catchup(_, _) => CatchupSchedule(w, s, step);
    case _ =>
  }

  lemma CreateSchedule(w: World, s: State, step: Step)
    requires AllOnSchedule(w, s) && Enabled(w, s, step) && step.event.Create?
    ensures AllOnSchedule(w, Next(w, s, step))
  {
    var e := step.event;
    if Inserts(w, s, step) {
      CreateIsOnSchedule(w, e.caller, e.req, e.uuid, e.env, step.now);
    }
  }

  lemma CatchupSchedule(w: World, s: State, step: Step)
    requires WellFormed(s) && AllOnSchedule(w, s) && Enabled(w, s, step) && step.event.Catchup?
    ensures AllOnSchedule(w, Next(w, s, step))
  {
    CatchUpKeepsIdentity(w.lib, s.tb, step.event.due, step.event.start);
    CatchUpIsOnSchedule(w.lib, s.tb, step.event.due, step.event.start);
  }

  /** The condition is exact: a step keeps every job on schedule if and only if `KeepsSchedule` holds of it. */
  lemma StepSchedule(w: World, s: State, step: Step)
    requires ScheduleOk(w, s) && Enabled(w, s, step)
    ensures AllOnSchedule(w, Next(w, s, step)) <==> KeepsSchedule(w, s, step)
    ensures KeepsSchedule(w, s, step) ==> ScheduleOk(w, Next(w, s, step))
  {
    StepKeepsWellFormed(w, s, step);
    StepKeepsPlans(w, s, step);
    if step.event.Commit? {
      CommitSchedule(w, s, step);
    } else if step.event.EditWrite? {
      EditSchedule(w, s, step);
    } else {
      OtherSchedule(w, s, step);
    }
  }

  // ---------------------------------------------------------------------------
  // Whole runs
  // ---------------------------------------------------------------------------

  lemma InitIsScheduled(w: World, s: State)
    requires Init(s) && AllOnSchedule(w, s)
    ensures ScheduleOk(w, s)
  {
    InitIsWellFormed(s);
  }

  /** Every job is on schedule in every state of a run. */
  ghost predicate Throughout(w: World, s: State, steps: seq<Step>)
    requires IsRun(w, s, steps)
    decreases |steps|
  {
    AllOnSchedule(w, s) && (steps != [] ==> Throughout(w, Next(w, s, steps[0]), steps[1..]))
  }

  /** Over whole runs the condition is exact too. */
  lemma {:induction false} ScheduleHoldsExactly(w: World, s: State, steps: seq<Step>)
    requires ScheduleOk(w, s) && IsRun(w, s, steps)
    ensures Throughout(w, s, steps) <==> Along(w, s, steps, KeepsSchedule)
    decreases |steps|
  {
    if steps != [] {
      StepSchedule(w, s, steps[0]);
      if KeepsSchedule(w, s, steps[0]) {
        ScheduleHoldsExactly(w, Next(w, s, steps[0]), steps[1..]);
      }
    }
  }

  /**
   No interference: a fire is booked on a row that still has the trigger it was scanned with, and an edit writes
   a row that has not fired since the edit read it.
   */
  predicate Undisturbed(w: World, s: State, step: Step) {
    match step.event
    case EditWrite(call, target) =>
      call in s.calls && s.calls[call].EditCall? && HasRow(s.tb, target, s.calls[call].read.uuid) ==>
        s.tb.jobs[target].lastFired == s.calls[call].read.lastFired
    case Commit =>
      s.current.Decided? && s.current.snap.id in s.tb.jobs ==>
        s.tb.jobs[s.current.snap.id].trigger == s.current.snap.job.trigger
    case _ => true
  }

  lemma UndisturbedKeepsSchedule(w: World, s: State, step: Step)
    requires ScheduleOk(w, s) && Enabled(w, s, step) && Undisturbed(w, s, step)
    ensures KeepsSchedule(w, s, step)
  {
    if step.event.Commit? && s.current.snap.id in s.tb.jobs {
      FireIsOnSchedule(w, s.current.snap, s.current.fireTs, s.current.next);
    } else if step.event.EditWrite? {
      assert PlanOk(w, s.calls[step.event.call]);
    }
  }

  lemma {:induction false} UndisturbedMeetsCondition(w: World, s: State, steps: seq<Step>)
    requires ScheduleOk(w, s) && IsRun(w, s, steps) && Along(w, s, steps, Undisturbed)
    ensures Along(w, s, steps, KeepsSchedule)
    decreases |steps|
  {
    if steps != [] {
      UndisturbedKeepsSchedule(w, s, steps[0]);
      StepSchedule(w, s, steps[0]);
      UndisturbedMeetsCondition(w, Next(w, s, steps[0]), steps[1..]);
    }
  }

  /** In every state reached without interference, every job's next fire time is an occurrence after its last fire. */
  lemma UndisturbedRunsStayOnSchedule(w: World, s: State, steps: seq<Step>)
    requires Init(s) && AllOnSchedule(w, s) && IsRun(w, s, steps) && Along(w, s, steps, Undisturbed)
    ensures Throughout(w, s, steps)
  {
    InitIsScheduled(w, s);
    UndisturbedMeetsCondition(w, s, steps);
    ScheduleHoldsExactly(w, s, steps);
  }
}
