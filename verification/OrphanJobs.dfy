/** Jobs of apps that are no longer configured do not fire. */
module OrphanJobs {
  import opened CronSchedule
  import opened JobTables
  import opened CatchUp
  import opened Scheduler
  import opened Identities

  /** The step's view of the configuration: the apps it knows are configured, and the startup pass is given them. */
  predicate Agrees(configured: set<App>, step: Step) {
    match step.event
    case Create(caller, _, _, _, env) => env.known ==> caller in configured
    case EditRead(_, caller, _, _, env) => env.known ==> caller in configured
    case Orphans(apps) => apps == configured
    case _ => true
  }

  /** Every edit under way is of a configured app. */
  ghost predicate EditorsOk(s: State, configured: set<App>) {
    forall c | c in s.calls && s.calls[c].EditCall? :: s.calls[c].caller in configured
  }

  /** Every enabled job, and every job about to be fired or firing, is of a configured app. */
  ghost predicate NoOrphans(s: State, configured: set<App>) {
    && (forall id | id in s.tb.jobs && s.tb.jobs[id].enabled :: s.tb.jobs[id].owner in configured)
    && (forall i | 0 <= i < |s.queue| :: s.queue[i].job.owner in configured)
    && (IsFiring(s.current) ==> s.current.snap.job.owner in configured)
  }

  lemma StepKeepsEditors(w: World, s: State, step: Step, configured: set<App>)
    requires EditorsOk(s, configured) && Enabled(w, s, step) && Agrees(configured, step)
    ensures EditorsOk(Next(w, s, step), configured)
  {
  }

  lemma CatchupKeepsOut(w: World, s: State, step: Step, configured: set<App>)
    requires WellFormed(s) && Enabled(w, s, step) && step.event.Catchup? && NoOrphans(s, configured)
    ensures NoOrphans(Next(w, s, step), configured)
  {
    var start, due := step.event.start, step.event.due;
    var tb' := CatchUpAll(w.lib, s.tb, due, start);
    CatchUpKeepsIdentity(w.lib, s.tb, due, start);
    forall id | id in tb'.jobs && tb'.jobs[id].enabled
      ensures tb'.jobs[id].owner in configured
    {
      CatchUpRows(w.lib, s.tb, due, start, id);
    }
  }

  lemma EditKeepsOut(w: World, s: State, step: Step, configured: set<App>)
    requires WellFormed(s) && Enabled(w, s, step) && step.event.EditWrite? && EditorsOk(s, configured) && NoOrphans(s, configured)
    ensures NoOrphans(Next(w, s, step), configured)
  {
    assert CallOk(s, s.calls[step.event.call]);
  }

  lemma StepKeepsOut(w: World, s: State, step: Step, configured: set<App>)
    requires WellFormed(s) && Enabled(w, s, step) && Agrees(configured, step)
    requires EditorsOk(s, configured) && NoOrphans(s, configured)
    ensures NoOrphans(Next(w, s, step), configured)
  {
    if step.event.EditWrite? {
      EditKeepsOut(w, s, step, configured);
    } else if step.event.Catchup? {
      CatchupKeepsOut(w, s, step, configured);
    }
  }

  lemma {:induction false} RunKeepsOut(w: World, s: State, steps: seq<Step>, configured: set<App>)
    requires WellFormed(s) && IsRun(w, s, steps) && EditorsOk(s, configured) && NoOrphans(s, configured)
    requires forall i | 0 <= i < |steps| :: Agrees(configured, steps[i])
    ensures NoOrphans(Final(w, s, steps), configured)
    decreases |steps|
  {
    if steps != [] {
      StepKeepsWellFormed(w, s, steps[0]);
      StepKeepsEditors(w, s, steps[0], configured);
      StepKeepsOut(w, s, steps[0], configured);
      RunKeepsOut(w, Next(w, s, steps[0]), steps[1..], configured);
    }
  }

  lemma {:induction false} RunKeepsEditors(w: World, s: State, steps: seq<Step>, configured: set<App>)
    requires WellFormed(s) && IsRun(w, s, steps) && EditorsOk(s, configured)
    requires forall i | 0 <= i < |steps| :: Agrees(configured, steps[i])
    ensures WellFormed(Final(w, s, steps)) && EditorsOk(Final(w, s, steps), configured)
    decreases |steps|
  {
    if steps != [] {
      StepKeepsWellFormed(w, s, steps[0]);
      StepKeepsEditors(w, s, steps[0], configured);
      RunKeepsEditors(w, Next(w, s, steps[0]), steps[1..], configured);
    }
  }

  lemma PassKeepsOut(w: World, s: State, pass: Step, after: seq<Step>, configured: set<App>)
    requires WellFormed(s) && EditorsOk(s, configured) && pass.event == Orphans(configured) && Enabled(w, s, pass)
    requires IsRun(w, Next(w, s, pass), after)
    requires forall i | 0 <= i < |after| :: Agrees(configured, after[i])
    ensures NoOrphans(Final(w, Next(w, s, pass), after), configured)
  {
    StepKeepsWellFormed(w, s, pass);
    StepKeepsEditors(w, s, pass, configured);
    RunKeepsOut(w, Next(w, s, pass), after, configured);
  }

  /**
   Once the startup pass has run, no job of an app that is not configured is enabled, waits to be fired or fires, in any
   state of the run, whatever apps call and however often the process restarts.
   */
  lemma OrphansNeverFire(w: World, s: State, before: seq<Step>, pass: Step, after: seq<Step>, configured: set<App>)
    requires Init(s) && IsRun(w, s, before) && pass.event == Orphans(configured) && Enabled(w, Final(w, s, before), pass)
    requires IsRun(w, Next(w, Final(w, s, before), pass), after)
    requires forall i | 0 <= i < |before| :: Agrees(configured, before[i])
    requires forall i | 0 <= i < |after| :: Agrees(configured, after[i])
    ensures NoOrphans(Final(w, Next(w, Final(w, s, before), pass), after), configured)
  {
    InitIsWellFormed(s);
    RunKeepsEditors(w, s, before, configured);
    PassKeepsOut(w, Final(w, s, before), pass, after, configured);
  }
}
