/**
 Runs that show where the conditions of the theorems are needed. One job, number 7, owned by "app", with three
 occurrences: one, two and three minutes after the start of time. Both caps are one; two failures in a row disable.
 */
module KnownGaps {
  import opened Options
  import opened CronSchedule
  import opened JobTables
  import opened CatchUp
  import opened Scheduler
  import opened RateLimits
  import opened RateLimitTheorems
  import opened ScheduleInvariant
  import opened FailureCounter
  import opened Ownership

  // ---------------------------------------------------------------------------
  // The job and its world
  // ---------------------------------------------------------------------------

  predicate IsOccasion(t: Instant) {
    t == FromDb(60) || t == FromDb(120) || t == FromDb(180)
  }

  function FindOccasion(after: Instant): Option<Instant> {
    if after < FromDb(60) then Some(FromDb(60))
    else if after < FromDb(120) then Some(FromDb(120))
    else if after < FromDb(180) then Some(FromDb(180))
    else None
  }

  ghost const OCCASIONS := RawSchedule(IsOccasion, _ => true, FindOccasion, FromDb(180))

  lemma OccasionsAreSchedule()
    ensures Contract(OCCASIONS)
  {
    forall t | OCCASIONS.candidate(t)
      ensures t <= OCCASIONS.horizon && FromDb(ToDb(t)) == t
    {
      assert IsOccasion(t);
    }
    forall after
      ensures IsLeastAfter(OCCASIONS.candidate, after, OCCASIONS.find(after))
    {
      assert OCCASIONS.find(after) == FindOccasion(after);
    }
  }

  ghost function Thrice(): Schedule {
    OccasionsAreSchedule();
    OCCASIONS
  }

  ghost const LIB := CronLib(_ => 5, _ => true, _ => true, (_, _) => Thrice())
  ghost const W := World(Config(1, 1, 2, 1), LIB)
  const TRIGGER := Trigger("* * * * *", "UTC", true)
  const JOB := Job(7, "app", "job", TRIGGER, "act", true, 0, 0, 0, None, 60, None)

  /** The job is due for its last slot. */
  const LAST := JOB.(lastFired := Some(120), nextFire := 180)

  /** The job has failed once. */
  const WORN := JOB.(failures := 1)

  const AT_ONE := FromDb(60)
  const AT_TWO := FromDb(120)
  const AT_THREE := FromDb(180)
  const LATE := FromDb(7200)

  lemma Occurrences()
    ensures ComputeNext(LIB, TRIGGER, AT_ONE) == Some(120)
    ensures ComputeNext(LIB, TRIGGER, AT_TWO) == Some(180)
    ensures ComputeNext(LIB, TRIGGER, AT_THREE) == None
    ensures IsOccurrence(LIB, TRIGGER, 60)
  {
  }

  /** The process starts, before any slot. */
  function Start(row: Job): State {
    State(0, Tables(map[1 := row], []), {7}, map[], [], Resting, false, [])
  }

  /** It has caught up; nothing was missed. */
  function Up(row: Job): State {
    Start(row).(booted := true)
  }

  // ---------------------------------------------------------------------------
  // Legs the runs are made of: each lemma puts two steps in front of a run
  // ---------------------------------------------------------------------------

  /** The jobs table holds this row alone, under id 1. */
  ghost predicate HasOnly(s: State, row: Job) {
    1 in s.tb.jobs && s.tb.jobs[1] == row && (forall id | id in s.tb.jobs :: id == 1)
  }

  /** The run that `steps` makes from `s` ends as the run that `rest` makes from `t`. */
  ghost predicate Continues(s: State, steps: seq<Step>, t: State, rest: seq<Step>)
    requires IsRun(W, t, rest)
  {
    IsRun(W, s, steps) && Final(W, s, steps) == Final(W, t, rest)
  }

  lemma TwoThen(s: State, a: Step, b: Step, t: State, rest: seq<Step>) returns (steps: seq<Step>)
    requires Enabled(W, s, a) && Enabled(W, Next(W, s, a), b) && t == Next(W, Next(W, s, a), b) && IsRun(W, t, rest)
    ensures Continues(s, steps, t, rest)
  {
    StepThenRun(W, Next(W, s, a), b, rest);
    StepThenRun(W, s, a, [b] + rest);
    steps := [a] + ([b] + rest);
  }

  /** The startup pass finds nothing due. */
  lemma BootThen(row: Job, rest: seq<Step>) returns (steps: seq<Step>)
    requires row.nextFire > 0 && IsRun(W, Up(row), rest)
    ensures Continues(Start(row), steps, Up(row), rest)
  {
    var step := Step(0, Catchup(0, []));
    assert Next(W, Start(row), step).seen == [];
    StepThenRun(W, Start(row), step, rest);
    steps := [step] + rest;
  }

  /** An outcome of a fire that passed the gate. */
  predicate IsRaw(raw: Outcome) {
    raw != RateLimit && raw != SuppressedReport
  }

  /** The scheduler is idle, the row is due, and call 0 is free. */
  ghost predicate IsReady(s: State, row: Job, at: Instant) {
    IsIdle(s) && s.booted && HasOnly(s, row) && s.clock <= at && IsDue(row, at) && 0 !in s.calls
  }

  function AfterGate(s: State, row: Job, at: Instant, raw: Outcome): State {
    s.(clock := at, current := Gated(Snapshot(1, row), at, raw),
       seen := s.seen + [Fired(row.uuid, at, row.nextFire, row.trigger, true, true)])
  }

  /** A due job is scanned and passes the gate. */
  lemma GateThen(s: State, row: Job, at: Instant, raw: Outcome, rest: seq<Step>) returns (steps: seq<Step>)
    requires IsReady(s, row, at) && CountInWindow(FireLimit, s.tb.fires, 1, at) == 0 && IsRaw(raw)
    requires IsRun(W, AfterGate(s, row, at, raw), rest)
    ensures Continues(s, steps, AfterGate(s, row, at, raw), rest)
  {
    var a, b := Step(at, Scan([Snapshot(1, row)])), Step(at, Gate(raw));
    assert Next(W, s, a).seen == s.seen;
    steps := TwoThen(s, a, b, AfterGate(s, row, at, raw), rest);
  }

  /** What the bookkeeping of a fire shows when nothing was reported before. */
  function Notes(at: Instant, raw: Outcome, own: bool): seq<Observation> {
    if raw == Ok then [Booked(7, true)] else [Booked(7, false), Reported(7, at, at, own)]
  }

  ghost function AfterCommit(s: State, row: Job, at: Instant, next: Stamp, raw: Outcome): State
    requires 1 in s.tb.jobs
  {
    s.(current := Resting,
       tb := Tables(s.tb.jobs[1 := FiredRow(W.cfg, s.tb.jobs[1], Snapshot(1, row), at, at, raw, next)],
                    Prune(s.tb.fires + [Fire(1, ToDb(at), raw)], 1, ToDb(at - DAY))),
       seen := s.seen + Notes(at, raw, s.tb.jobs[1].uuid == 7))
  }

  /** A fire past the gate is booked. */
  lemma CommitThen(s: State, row: Job, at: Instant, next: Stamp, raw: Outcome, rest: seq<Step>) returns (steps: seq<Step>)
    requires s.current == Gated(Snapshot(1, row), at, raw) && s.clock == at && 1 in s.tb.jobs && row.uuid == 7 && IsRaw(raw)
    requires ComputeNext(LIB, row.trigger, at) == Some(next) && CountInWindow(ReportLimit, s.tb.fires, 1, at) == 0
    requires IsRun(W, AfterCommit(s, row, at, next, raw), rest)
    ensures Continues(s, steps, AfterCommit(s, row, at, next, raw), rest)
  {
    Decides(s, row, at, next, raw);
    Commits(s, row, at, next, raw);
    steps := TwoThen(s, Step(at, Decide), Step(at, Commit), AfterCommit(s, row, at, next, raw), rest);
  }

  function AfterDecide(s: State, row: Job, at: Instant, next: Stamp, raw: Outcome): State {
    s.(current := Decided(Snapshot(1, row), at, raw, at, raw, raw != Ok, next))
  }

  lemma Decides(s: State, row: Job, at: Instant, next: Stamp, raw: Outcome)
    requires s.current == Gated(Snapshot(1, row), at, raw) && s.clock == at
    requires ComputeNext(LIB, row.trigger, at) == Some(next) && CountInWindow(ReportLimit, s.tb.fires, 1, at) == 0
    ensures Enabled(W, s, Step(at, Decide)) && Next(W, s, Step(at, Decide)) == AfterDecide(s, row, at, next, raw)
  {
    assert Next(W, s, Step(at, Decide)).seen == s.seen;
  }

  lemma Commits(s: State, row: Job, at: Instant, next: Stamp, raw: Outcome)
    requires s.clock == at && 1 in s.tb.jobs && row.uuid == 7
    ensures Enabled(W, AfterDecide(s, row, at, next, raw), Step(at, Commit))
    ensures Next(W, AfterDecide(s, row, at, next, raw), Step(at, Commit)) == AfterCommit(s, row, at, next, raw)
  {
    var q := AfterDecide(s, row, at, next, raw);
    assert Shown(q, Step(at, Commit)) == Notes(at, raw, s.tb.jobs[1].uuid == 7);
  }

  function AfterScan(s: State, row: Job, at: Instant): State {
    s.(clock := at, queue := [Snapshot(1, row)], calls := s.calls[0 := DeleteCall("app", row)])
  }

  /** A due job is scanned, and its owner asks to delete it. */
  lemma ScanThen(s: State, row: Job, at: Instant, rest: seq<Step>) returns (steps: seq<Step>)
    requires IsReady(s, row, at) && row.owner == "app" && IsRun(W, AfterScan(s, row, at), rest)
    ensures Continues(s, steps, AfterScan(s, row, at), rest)
  {
    var a, b := Step(at, Scan([Snapshot(1, row)])), Step(at, DeleteRead(0, "app", 1));
    assert Next(W, s, a).seen == s.seen && Next(W, Next(W, s, a), b).seen == s.seen;
    steps := TwoThen(s, a, b, AfterScan(s, row, at), rest);
  }

  function AfterGhost(s: State, row: Job, at: Instant, raw: Outcome): State {
    State(at, DeleteJob(s.tb, 1), s.used, s.calls[0 := DeleteCall("app", row)] - {0}, [], Gated(Snapshot(1, row), at, raw), s.booted,
          s.seen + [Fired(row.uuid, at, row.nextFire, row.trigger, true, false)])
  }

  /** A due job is scanned, then deleted, its log with it, and then passes the gate. */
  lemma GhostThen(s: State, row: Job, at: Instant, raw: Outcome, rest: seq<Step>) returns (steps: seq<Step>)
    requires IsReady(s, row, at) && row.owner == "app" && IsRaw(raw) && IsRun(W, AfterGhost(s, row, at, raw), rest)
    ensures Continues(s, steps, AfterGhost(s, row, at, raw), rest)
  {
    var q := AfterScan(s, row, at);
    var tail := DeleteThen(q, s, row, at, raw, rest);
    steps := ScanThen(s, row, at, tail);
  }

  lemma DeleteThen(q: State, s: State, row: Job, at: Instant, raw: Outcome, rest: seq<Step>) returns (steps: seq<Step>)
    requires HasOnly(s, row) && s.current == Resting && q == AfterScan(s, row, at) && IsRaw(raw)
    requires IsRun(W, AfterGhost(s, row, at, raw), rest)
    ensures Continues(q, steps, AfterGhost(s, row, at, raw), rest)
  {
    var a, b := Step(at, DeleteWrite(0, 1)), Step(at, Gate(raw));
    assert Next(W, q, a).seen == s.seen;
    NothingLeft(FireLimit, s.tb.fires, at);
    steps := TwoThen(q, a, b, AfterGhost(s, row, at, raw), rest);
  }

  lemma NothingLeft(limit: Limit, fires: seq<Fire>, at: Instant)
    ensures CountInWindow(limit, Cascade(fires, 1), 1, at) == 0
  {
    CascadeIsSublist(fires, 1);
    NoRowsNoCount(limit, Cascade(fires, 1), at);
  }

  lemma {:induction false} NoRowsNoCount(limit: Limit, fires: seq<Fire>, at: Instant)
    requires forall i | 0 <= i < |fires| :: fires[i].job != 1
    ensures CountInWindow(limit, fires, 1, at) == 0
  {
    if fires != [] {
      NoRowsNoCount(limit, fires[..|fires| - 1], at);
    }
  }

  /** The job after a fire of its first slot. */
  ghost function FiredOnce(row: Job, raw: Outcome): Job {
    FiredRow(W.cfg, row, Snapshot(1, row), AT_ONE, AT_ONE, raw, 120)
  }

  ghost function AfterFire(raw: Outcome): State {
    AfterCommit(AfterGate(Up(JOB), JOB, AT_ONE, raw), JOB, AT_ONE, 120, raw)
  }

  /** A fire of the first slot, from the scan to the bookkeeping. */
  lemma FireThen(raw: Outcome, rest: seq<Step>) returns (steps: seq<Step>)
    requires IsRaw(raw) && IsRun(W, AfterFire(raw), rest)
    ensures Continues(Up(JOB), steps, AfterFire(raw), rest)
  {
    Occurrences();
    var tail := CommitThen(AfterGate(Up(JOB), JOB, AT_ONE, raw), JOB, AT_ONE, 120, raw, rest);
    steps := GateThen(Up(JOB), JOB, AT_ONE, raw, tail);
  }

  /** After a success or a first failure the job is due again at its second slot. */
  lemma ReadyAgain(raw: Outcome)
    ensures IsReady(AfterFire(raw), FiredOnce(JOB, raw), AT_TWO) && AfterFire(raw).used == {7}
    ensures FiredOnce(JOB, raw).owner == "app" && FiredOnce(JOB, raw).uuid == 7 && FiredOnce(JOB, raw).trigger == TRIGGER
    ensures FiredOnce(JOB, raw).nextFire == 120
    ensures AfterFire(raw).seen == [Fired(7, AT_ONE, 60, TRIGGER, true, true)] + Notes(AT_ONE, raw, true)
  {
  }

  // ---------------------------------------------------------------------------
  // The fire cap
  // ---------------------------------------------------------------------------

  /**
   The fire cap can be exceeded by one. A job fires; when it is next due, it is scanned and then deleted, and its log
   with it; the gate counts the empty log and lets it through. Two fires within the hour, and the cap is one.
   */
  lemma CapCanBeExceeded() returns (steps: seq<Step>)
    ensures Init(Start(JOB)) && IsRun(W, Start(JOB), steps)
    ensures CountBetween(FireLimit, Final(W, Start(JOB), steps).seen, 7, AT_ONE, AT_ONE + HOUR) == 2 > W.cfg.maxFires
  {
    var s := AfterFire(Ok);
    ReadyAgain(Ok);
    var tail := GhostThen(s, FiredOnce(JOB, Ok), AT_TWO, Ok, []);
    var run := FireThen(Ok, tail);
    steps := BootThen(JOB, run);
    CountThree(AfterGhost(s, FiredOnce(JOB, Ok), AT_TWO, Ok).seen, AT_ONE, AT_ONE + HOUR);
  }

  function One(limit: Limit, o: Observation, lo: Instant, hi: Instant): nat {
    if Hits(limit, o, 7, lo) && MomentOf(limit, o) <= hi then 1 else 0
  }

  lemma CountStep(limit: Limit, seen: seq<Observation>, k: nat, lo: Instant, hi: Instant)
    requires k < |seen|
    ensures CountBetween(limit, seen[..k + 1], 7, lo, hi) == CountBetween(limit, seen[..k], 7, lo, hi) + One(limit, seen[k], lo, hi)
  {
    BetweenSnoc(limit, seen[..k], seen[k], 7, lo, hi);
    assert seen[..k] + [seen[k]] == seen[..k + 1];
  }

  lemma CountThree(seen: seq<Observation>, lo: Instant, hi: Instant)
    requires |seen| == 3
    ensures CountBetween(FireLimit, seen, 7, lo, hi) ==
            One(FireLimit, seen[0], lo, hi) + One(FireLimit, seen[1], lo, hi) + One(FireLimit, seen[2], lo, hi)
  {
    CountStep(FireLimit, seen, 0, lo, hi);
    CountStep(FireLimit, seen, 1, lo, hi);
    CountStep(FireLimit, seen, 2, lo, hi);
    assert seen[..0] == [] && seen[..3] == seen;
  }

  /** The process stops in the middle of a fire, starts again and catches up. */
  function AfterCrash(s: State): State
    requires IsFiring(s.current)
  {
    s.(calls := map[], queue := [], current := Resting, booted := true,
       seen := s.seen + [Lost(s.current.snap.job.uuid, s.current.fireTs, s.current.raw != RateLimit)])
  }

  lemma CrashThen(s: State, row: Job, rest: seq<Step>) returns (steps: seq<Step>)
    requires IsFiring(s.current) && HasOnly(s, row) && IsDue(row, s.clock) && row.trigger.persistent && IsRun(W, AfterCrash(s), rest)
    ensures Continues(s, steps, AfterCrash(s), rest)
  {
    var a, b := Step(s.clock, Restart), Step(s.clock, Catchup(s.clock, [Snapshot(1, row)]));
    assert CatchUpAll(LIB, s.tb, [Snapshot(1, row)], s.clock) == s.tb;
    assert Next(W, Next(W, s, a), b).seen == Next(W, s, a).seen;
    steps := TwoThen(s, a, b, AfterCrash(s), rest);
  }

  /** So it can by a crash: a fire of a persistent job that was not logged is fired again, for the same slot. */
  lemma CrashRepeatsFire() returns (steps: seq<Step>)
    ensures Init(Start(JOB)) && IsRun(W, Start(JOB), steps)
    ensures Final(W, Start(JOB), steps).seen == [Fired(7, AT_ONE, 60, TRIGGER, true, true), Lost(7, AT_ONE, true),
                                                 Fired(7, AT_ONE, 60, TRIGGER, true, true)]
    ensures CountBetween(FireLimit, Final(W, Start(JOB), steps).seen, 7, AT_ONE, AT_ONE + HOUR) == 2 > W.cfg.maxFires
  {
    var s := AfterGate(Up(JOB), JOB, AT_ONE, Ok);
    var r := AfterCrash(s);
    var tail := GateThen(r, JOB, AT_ONE, Ok, []);
    tail := CrashThen(s, JOB, tail);
    var run := GateThen(Up(JOB), JOB, AT_ONE, Ok, tail);
    steps := BootThen(JOB, run);
    CountThree(AfterGate(r, JOB, AT_ONE, Ok).seen, AT_ONE, AT_ONE + HOUR);
  }

  // ---------------------------------------------------------------------------
  // The life of the scheduler
  // ---------------------------------------------------------------------------

  /** A job deleted before its last fire takes the scheduler down. */
  lemma DeleteCanKillScheduler() returns (steps: seq<Step>)
    ensures Init(Start(LAST)) && IsRun(W, Start(LAST), steps) && Final(W, Start(LAST), steps).current == Dead
  {
    var tail := LastStep(AfterGhost(Up(LAST), LAST, AT_THREE, Ok));
    var run := GhostThen(Up(LAST), LAST, AT_THREE, Ok, tail);
    steps := BootThen(LAST, run);
  }

  lemma LastStep(s: State) returns (steps: seq<Step>)
    requires s.clock == AT_THREE && s.current == Gated(Snapshot(1, LAST), AT_THREE, Ok) && 1 !in s.tb.jobs
    ensures IsRun(W, s, steps) && Final(W, s, steps).current == Dead
  {
    Occurrences();
    StepThenRun(W, s, Step(AT_THREE, Unsatisfiable), []);
    steps := [Step(AT_THREE, Unsatisfiable)] + [];
  }

  // ---------------------------------------------------------------------------
  // An edit that was read before a fire and written after it
  // ---------------------------------------------------------------------------

  const RENAME := EditReq(Some("new"), None, None, None)
  const FULL := Standing(true, true, true, true)
  const PLAN := Plan("new", TRIGGER, "act", true, AT_ONE, 60, false)
  const READ := Step(AT_ONE, EditRead(0, "app", 1, RENAME, FULL))
  const WRITE := Step(AT_ONE, EditWrite(0, 1))

  function AfterRead(s: State, row: Job): State {
    s.(calls := s.calls[0 := EditCall("app", row, PLAN)])
  }

  lemma ReadThen(s: State, row: Job, rest: seq<Step>) returns (steps: seq<Step>)
    requires row in {JOB, WORN} && HasOnly(s, row) && s.clock == AT_ONE && 0 !in s.calls && IsRun(W, AfterRead(s, row), rest)
    ensures Continues(s, steps, AfterRead(s, row), rest)
  {
    assert Next(W, s, READ).seen == s.seen;
    StepThenRun(W, s, READ, rest);
    steps := [READ] + rest;
  }

  function AfterWrite(s: State): State
    requires 1 in s.tb.jobs
  {
    s.(tb := s.tb.(jobs := s.tb.jobs[1 := EditedRow(s.tb.jobs[1], PLAN)]), calls := s.calls - {0})
  }

  lemma WriteThen(s: State, read: Job, rest: seq<Step>) returns (steps: seq<Step>)
    requires 1 in s.tb.jobs && HasOnly(s, s.tb.jobs[1]) && s.tb.jobs[1].uuid == read.uuid && s.clock == AT_ONE
    requires 0 in s.calls && s.calls[0] == EditCall("app", read, PLAN) && IsRun(W, AfterWrite(s), rest)
    ensures Continues(s, steps, AfterWrite(s), rest)
  {
    assert Next(W, s, WRITE).seen == s.seen;
    StepThenRun(W, s, WRITE, rest);
    steps := [WRITE] + rest;
  }

  /** The state after a fire of the first slot that an edit straddled. */
  ghost function AfterEdit(row: Job, raw: Outcome): State {
    AfterWrite(AfterCommit(AfterRead(AfterGate(Up(row), row, AT_ONE, raw), row), row, AT_ONE, 120, raw))
  }

  lemma EditThen(row: Job, raw: Outcome, rest: seq<Step>) returns (steps: seq<Step>)
    requires row in {JOB, WORN} && IsRaw(raw) && IsRun(W, AfterEdit(row, raw), rest)
    ensures Continues(Up(row), steps, AfterEdit(row, raw), rest)
  {
    Occurrences();
    var q := AfterGate(Up(row), row, AT_ONE, raw);
    var tail := WriteThen(AfterCommit(AfterRead(q, row), row, AT_ONE, 120, raw), row, rest);
    tail := CommitThen(AfterRead(q, row), row, AT_ONE, 120, raw, tail);
    tail := ReadThen(q, row, tail);
    steps := GateThen(Up(row), row, AT_ONE, raw, tail);
  }

  /**
   Renaming a job can make it fire a slot twice: the edit writes back the fire time it read, and a fire was booked in
   between.
   */
  lemma StaleEditRepeatsFire() returns (steps: seq<Step>)
    ensures Init(Start(JOB)) && AllOnSchedule(W, Start(JOB)) && IsRun(W, Start(JOB), steps)
    ensures Final(W, Start(JOB), steps).seen ==
            [Fired(7, AT_ONE, 60, TRIGGER, true, true), Booked(7, true), Fired(7, LATE, 60, TRIGGER, true, true)]
  {
    Occurrences();
    var run := RenamedRun();
    steps := BootThen(JOB, run);
  }

  lemma RenamedRun() returns (steps: seq<Step>)
    ensures IsRun(W, Up(JOB), steps)
    ensures Final(W, Up(JOB), steps).seen ==
            [Fired(7, AT_ONE, 60, TRIGGER, true, true), Booked(7, true), Fired(7, LATE, 60, TRIGGER, true, true)]
  {
    var s := AfterEdit(JOB, Ok);
    OldRow(s.tb.fires);
    var tail := GateThen(s, EditedRow(FiredOnce(JOB, Ok), PLAN), LATE, Ok, []);
    steps := EditThen(JOB, Ok, tail);
  }

  /** Two hours later the first fire no longer counts. */
  lemma OldRow(fires: seq<Fire>)
    requires fires == Prune([] + [Fire(1, 60, Ok)], 1, ToDb(AT_ONE - DAY))
    ensures CountInWindow(FireLimit, fires, 1, LATE) == 0
  {
    var one := [Fire(1, 60, Ok)];
    assert [] + one == one && one[..0] == [];
  }

  /**
   Renaming a job can undo its automatic disabling: the edit writes back the enabled flag it read, and a fire that
   reached the threshold was booked in between.
   */
  lemma StaleEditRevives() returns (steps: seq<Step>)
    ensures Init(Start(WORN)) && AllFair(W, Start(WORN)) && IsRun(W, Start(WORN), steps)
    ensures var t := Final(W, Start(WORN), steps);
            && !AllFair(W, t)
            && 1 in t.tb.jobs && t.tb.jobs[1].enabled && t.tb.jobs[1].failures == W.cfg.failuresToDisable
  {
    RevivedRow();
    var run := EditThen(WORN, ActionError, []);
    steps := BootThen(WORN, run);
  }

  lemma RevivedRow()
    ensures var t := AfterEdit(WORN, ActionError);
            1 in t.tb.jobs && t.tb.jobs[1].enabled && t.tb.jobs[1].failures == W.cfg.failuresToDisable
  {
  }

  // ---------------------------------------------------------------------------
  // A row id used again
  // ---------------------------------------------------------------------------

  function Taker(at: Instant, next: Stamp): Job {
    Job(8, "other", "job", TRIGGER, "act", true, 0, ToDb(at), ToDb(at), None, next, None)
  }

  function AfterInsert(s: State, at: Instant, next: Stamp): State {
    s.(tb := InsertJob(s.tb, 1, Taker(at, next)), used := s.used + {8})
  }

  lemma NoJobsOf(jobs: map<RowId, Job>, app: App)
    requires forall id :: id !in jobs
    ensures |JobsOf(jobs, app)| == 0
  {
    var none: map<RowId, Job> := map[];
    JobsShrink(none, jobs, app);
    assert JobsOf(none, app) == {};
  }

  /** Another app creates a job, which gets row id 1. */
  lemma InsertThen(s: State, at: Instant, next: Stamp, rest: seq<Step>) returns (steps: seq<Step>)
    requires (forall id :: id !in s.tb.jobs) && s.clock == at && 8 !in s.used && ComputeNext(LIB, TRIGGER, at) == Some(next)
    requires IsRun(W, AfterInsert(s, at, next), rest)
    ensures Continues(s, steps, AfterInsert(s, at, next), rest)
  {
    var step := Step(at, Create("other", 8, 1, CreateReq("job", TRIGGER, "act", true), FULL));
    NoJobsOf(s.tb.jobs, "other");
    assert Next(W, s, step).seen == s.seen;
    StepThenRun(W, s, step, rest);
    steps := [step] + rest;
  }

  ghost function AfterTakeover(s: State, row: Job, at: Instant, next: Stamp, raw: Outcome): State {
    AfterCommit(AfterInsert(AfterGhost(s, row, at, raw), at, next), row, at, next, raw)
  }

  /** A due job is scanned, deleted, passes the gate, loses its row id to another, and is booked there. */
  lemma TakeoverRun(s: State, row: Job, at: Instant, next: Stamp, raw: Outcome) returns (steps: seq<Step>)
    requires IsReady(s, row, at) && row.owner == "app" && row.uuid == 7 && row.trigger == TRIGGER && IsRaw(raw)
    requires s.used == {7} && ComputeNext(LIB, TRIGGER, at) == Some(next)
    ensures IsRun(W, s, steps) && Final(W, s, steps) == AfterTakeover(s, row, at, next, raw)
  {
    var t := AfterGhost(s, row, at, raw);
    assert forall id :: id !in t.tb.jobs;
    NothingLeft(ReportLimit, s.tb.fires, at);
    var tail := CommitThen(AfterInsert(t, at, next), row, at, next, raw, []);
    tail := InsertThen(t, at, next, tail);
    steps := GhostThen(s, row, at, raw, tail);
  }

  /**
   A fire can be booked on a job that never fired: its own job was deleted, and a job created since has taken over the
   row id.
   */
  lemma FireCanLandElsewhere() returns (steps: seq<Step>)
    ensures Init(Start(JOB)) && IsRun(W, Start(JOB), steps)
    ensures var t := Final(W, Start(JOB), steps);
            && 1 in t.tb.jobs && t.tb.jobs[1].uuid == 8 && t.tb.jobs[1].lastFired == Some(60)
            && t.seen == [Fired(7, AT_ONE, 60, TRIGGER, true, false), Booked(7, true)]
  {
    Occurrences();
    var run := TakeoverRun(Up(JOB), JOB, AT_ONE, 120, Ok);
    steps := BootThen(JOB, run);
  }

  /**
   The report cap can be exceeded by one. A job fails and is reported; when it fails again, it has been deleted, and its
   log with it, and another job has taken over the row id, so the report goes out. Two in the hour, and the cap is one.
   */
  lemma ReportCapCanBeExceeded() returns (steps: seq<Step>)
    ensures Init(Start(JOB)) && IsRun(W, Start(JOB), steps)
    ensures CountBetween(ReportLimit, Final(W, Start(JOB), steps).seen, 7, AT_ONE, AT_TWO) == 2 > W.cfg.maxReports
  {
    var tail := SecondFailure();
    var run := FireThen(ActionError, tail);
    steps := BootThen(JOB, run);
  }

  lemma SecondFailure() returns (steps: seq<Step>)
    ensures IsRun(W, AfterFire(ActionError), steps)
    ensures CountBetween(ReportLimit, Final(W, AfterFire(ActionError), steps).seen, 7, AT_ONE, AT_TWO) == 2
  {
    Occurrences();
    ReadyAgain(ActionError);
    steps := TakeoverRun(AfterFire(ActionError), FiredOnce(JOB, ActionError), AT_TWO, 180, ActionError);
    SeenTwice(AfterFire(ActionError), FiredOnce(JOB, ActionError));
  }

  lemma SeenTwice(s: State, row: Job)
    requires s.seen == [Fired(7, AT_ONE, 60, TRIGGER, true, true)] + Notes(AT_ONE, ActionError, true)
    ensures CountBetween(ReportLimit, AfterTakeover(s, row, AT_TWO, 180, ActionError).seen, 7, AT_ONE, AT_TWO) == 2
  {
    TwoReports(AfterTakeover(s, row, AT_TWO, 180, ActionError).seen);
  }

  lemma TwoReports(seen: seq<Observation>)
    requires |seen| == 6 && seen[2] == Reported(7, AT_ONE, AT_ONE, true) && seen[5] == Reported(7, AT_TWO, AT_TWO, false)
    requires !seen[0].Reported? && !seen[1].Reported? && !seen[3].Reported? && !seen[4].Reported?
    ensures CountBetween(ReportLimit, seen, 7, AT_ONE, AT_TWO) == 2
  {
    CountStep(ReportLimit, seen, 0, AT_ONE, AT_TWO);
    CountStep(ReportLimit, seen, 1, AT_ONE, AT_TWO);
    CountStep(ReportLimit, seen, 2, AT_ONE, AT_TWO);
    CountStep(ReportLimit, seen, 3, AT_ONE, AT_TWO);
    CountStep(ReportLimit, seen, 4, AT_ONE, AT_TWO);
    CountStep(ReportLimit, seen, 5, AT_ONE, AT_TWO);
    assert seen[..0] == [] && seen[..6] == seen;
  }
}
