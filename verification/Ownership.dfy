/** Calls of one app leave other apps' jobs alone, and no app has more jobs than its cap, under any interleaving. */
module Ownership {
  import opened Options
  import opened JobTables
  import opened Scheduler
  import opened Identities

  /** The app on whose behalf a step is taken; None for the engine's own steps. */
  function CallerOf(s: State, step: Step): Option<App> {
    match step.event
    case Create(caller, _, _, _, _) => Some(caller)
    case EditRead(_, caller, _, _, _) => Some(caller)
    case DeleteRead(_, caller, _) => Some(caller)
    case EditWrite(call, _) => if call in s.calls then Some(s.calls[call].caller) else None
    case DeleteWrite(call, _) => if call in s.calls then Some(s.calls[call].caller) else None
    case _ => None
  }

  /** Every row of another app is there before and after, unchanged, and so is every fire of such a row. */
  ghost predicate LeavesOthersAlone(s: State, t: State, app: App) {
    && (forall id | id in s.tb.jobs && s.tb.jobs[id].owner != app :: id in t.tb.jobs && t.tb.jobs[id] == s.tb.jobs[id])
    && (forall id | id in t.tb.jobs && t.tb.jobs[id].owner != app :: id in s.tb.jobs && t.tb.jobs[id] == s.tb.jobs[id])
    && (forall f: Fire | f.job in s.tb.jobs && s.tb.jobs[f.job].owner != app :: f in t.tb.fires <==> f in s.tb.fires)
  }

  lemma CallLeavesOthersAlone(w: World, s: State, step: Step)
    requires WellFormed(s) && Enabled(w, s, step) && CallerOf(s, step).Some?
    ensures LeavesOthersAlone(s, Next(w, s, step), CallerOf(s, step).value)
  {
    match step.event
    case EditWrite(call, target) => assert CallOk(s, s.calls[call]);
    case DeleteWrite(call, target) =>
      assert CallOk(s, s.calls[call]);
      CascadeIsSublist(s.tb.fires, target);
    case _ =>
  }

  lemma {:induction false} RunIsWellFormed(w: World, s: State, steps: seq<Step>)
    requires WellFormed(s) && IsRun(w, s, steps)
    ensures WellFormed(Final(w, s, steps))
    decreases |steps|
  {
    if steps != [] {
      StepKeepsWellFormed(w, s, steps[0]);
      RunIsWellFormed(w, Next(w, s, steps[0]), steps[1..]);
    }
  }

  /**
   Owner isolation. After any run, however calls are interleaved, a step of one app's call changes no row and no
   fire of another app, although ownership was checked in an earlier step than the write.
   */
  lemma OwnersAreIsolated(w: World, s: State, steps: seq<Step>, step: Step)
    requires Init(s) && IsRun(w, s, steps) && Enabled(w, Final(w, s, steps), step)
    requires CallerOf(Final(w, s, steps), step).Some?
    ensures var t := Final(w, s, steps);
            LeavesOthersAlone(t, Next(w, t, step), CallerOf(t, step).value)
  {
    InitIsWellFormed(s);
    RunIsWellFormed(w, s, steps);
    CallLeavesOthersAlone(w, Final(w, s, steps), step);
  }

  // ---------------------------------------------------------------------------
  // The job cap
  // ---------------------------------------------------------------------------

  ghost predicate WithinJobCap(w: World, s: State) {
    forall app :: |JobsOf(s.tb.jobs, app)| <= w.cfg.maxJobs
  }

  lemma JobsGrowByOne(jobs: map<RowId, Job>, id: RowId, row: Job, app: App)
    requires id !in jobs
    ensures JobsOf(jobs[id := row], app) == JobsOf(jobs, app) + if row.owner == app then {id} else {}
  {
  }

  lemma JobsShrink(jobs: map<RowId, Job>, less: map<RowId, Job>, app: App)
    requires forall id | id in less :: id in jobs && less[id].owner == jobs[id].owner
    ensures |JobsOf(less, app)| <= |JobsOf(jobs, app)|
  {
    var a, b := JobsOf(less, app), JobsOf(jobs, app);
    assert forall id | id in a :: id in b;
    assert b == a + (b - a);
  }

  lemma StepKeepsJobCap(w: World, s: State, step: Step)
    requires WellFormed(s) && WithinJobCap(w, s) && Enabled(w, s, step)
    ensures WithinJobCap(w, Next(w, s, step))
  {
    var t := Next(w, s, step);
    StepEvolves(w, s, step);
    forall app
      ensures |JobsOf(t.tb.jobs, app)| <= w.cfg.maxJobs
    {
      if step.event.Create? {
        CreateKeepsJobCap(w, s, step, app);
      } else {
        assert forall id | id in t.tb.jobs :: Kept(s, t, id) by {
          if step.event.Catchup? {
            CatchUpKeepsIdentity(w.lib, s.tb, step.event.due, step.event.start);
          }
        }
        JobsShrink(s.tb.jobs, t.tb.jobs, app);
      }
    }
  }

  lemma CreateKeepsJobCap(w: World, s: State, step: Step, app: App)
    requires WithinJobCap(w, s) && Enabled(w, s, step) && step.event.Create?
    ensures |JobsOf(Next(w, s, step).tb.jobs, app)| <= w.cfg.maxJobs
  {
    var e, t := step.event, Next(w, s, step);
    if t.tb != s.tb {
      var row := t.tb.jobs[e.id];
      assert t.tb.jobs == s.tb.jobs[e.id := row] && row.owner == e.caller;
      JobsGrowByOne(s.tb.jobs, e.id, row, app);
    }
  }

  /** Job cap. No app ever has more jobs than the cap, if every app started within it. */
  lemma {:induction false} JobCapHolds(w: World, s: State, steps: seq<Step>)
    requires WellFormed(s) && WithinJobCap(w, s) && IsRun(w, s, steps)
    ensures WithinJobCap(w, Final(w, s, steps))
    decreases |steps|
  {
    if steps != [] {
      StepKeepsJobCap(w, s, steps[0]);
      StepKeepsWellFormed(w, s, steps[0]);
      JobCapHolds(w, Next(w, s, steps[0]), steps[1..]);
    }
  }
}
