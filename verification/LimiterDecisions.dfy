/**
 What the two limiters decide, by the rows of the log: the gate lets a fire through, and a failure is reported, exactly
 when fewer than the cap of the job's rows of the hour before count. An hour is written out in nanoseconds, as the clock
 has it, and in seconds, as the log has it.
 */
module LimiterDecisions {
  import opened Options
  import opened CronSchedule
  import opened JobTables
  import opened Scheduler

  /** The row is of this job, and no older than an hour. */
  predicate IsRecent(f: Fire, id: RowId, now: Instant) {
    f.job == id && f.at >= (now - 3_600_000_000_000) / 1_000_000_000
  }

  /** It was let through the gate. */
  predicate IsPassed(f: Fire, id: RowId, now: Instant) {
    IsRecent(f, id, now) && f.outcome != RateLimit
  }

  /** It is a failure whose report was not suppressed. */
  predicate IsReported(f: Fire, id: RowId, now: Instant) {
    IsRecent(f, id, now) && f.outcome != Ok && f.outcome != SuppressedReport
  }

  /** The positions of such rows in the log. */
  function PassedRows(fires: seq<Fire>, id: RowId, now: Instant): set<int> {
    set k | 0 <= k < |fires| && IsPassed(fires[k], id, now)
  }

  function ReportedRows(fires: seq<Fire>, id: RowId, now: Instant): set<int> {
    set k | 0 <= k < |fires| && IsReported(fires[k], id, now)
  }

  lemma {:induction false} PassedRowsAreCounted(fires: seq<Fire>, id: RowId, now: Instant)
    ensures |PassedRows(fires, id, now)| == CountInWindow(FireLimit, fires, id, now)
    decreases |fires|
  {
    if fires == [] {
      assert PassedRows(fires, id, now) == {};
    } else {
      var n := |fires| - 1;
      PassedRowsAreCounted(fires[..n], id, now);
      PassedRowsGrow(fires, id, now);
      assert IsPassed(fires[n], id, now) <==> CountsRow(FireLimit, fires[n], id, ToDb(now - HOUR));
    }
  }

  lemma PassedRowsGrow(fires: seq<Fire>, id: RowId, now: Instant)
    requires fires != []
    ensures var n := |fires| - 1;
            |PassedRows(fires, id, now)| == |PassedRows(fires[..n], id, now)| + if IsPassed(fires[n], id, now) then 1 else 0
  {
    var n := |fires| - 1;
    assert PassedRows(fires, id, now) == PassedRows(fires[..n], id, now) + if IsPassed(fires[n], id, now) then {n} else {};
  }

  lemma {:induction false} ReportedRowsAreCounted(fires: seq<Fire>, id: RowId, now: Instant)
    ensures |ReportedRows(fires, id, now)| == CountInWindow(ReportLimit, fires, id, now)
    decreases |fires|
  {
    if fires == [] {
      assert ReportedRows(fires, id, now) == {};
    } else {
      var n := |fires| - 1;
      ReportedRowsAreCounted(fires[..n], id, now);
      ReportedRowsGrow(fires, id, now);
      assert IsReported(fires[n], id, now) <==> CountsRow(ReportLimit, fires[n], id, ToDb(now - HOUR));
    }
  }

  lemma ReportedRowsGrow(fires: seq<Fire>, id: RowId, now: Instant)
    requires fires != []
    ensures var n := |fires| - 1;
            |ReportedRows(fires, id, now)| == |ReportedRows(fires[..n], id, now)| + if IsReported(fires[n], id, now) then 1 else 0
  {
    var n := |fires| - 1;
    assert ReportedRows(fires, id, now) == ReportedRows(fires[..n], id, now) + if IsReported(fires[n], id, now) then {n} else {};
  }

  // ---------------------------------------------------------------------------
  // The gate
  // ---------------------------------------------------------------------------

  /** The hour before has as many rows of the job let through as the cap. */
  predicate IsFull(w: World, s: State, id: RowId, now: Instant) {
    |PassedRows(s.tb.fires, id, now)| >= w.cfg.maxFires
  }

  /** The first waiting job is fired, for the slot it was scanned for; it passes exactly when the hour is not full. */
  lemma GateIsExact(w: World, s: State, step: Step)
    requires Enabled(w, s, step) && step.event.Gate?
    ensures var snap := s.queue[0];
            exists o :: Next(w, s, step).seen == s.seen + [o] && o.Fired? && o.uuid == snap.job.uuid && o.at == step.now
                        && o.slot == snap.job.nextFire && (o.passed <==> !IsFull(w, s, snap.id, step.now))
  {
    PassedRowsAreCounted(s.tb.fires, s.queue[0].id, step.now);
    var o := Shown(s, step)[0];
    assert Next(w, s, step).seen == s.seen + [o];
  }

  /** Along the run, the observation at position `i` is shown by a gate that finds the hour full. */
  ghost predicate IsDroppedOnFull(w: World, s: State, steps: seq<Step>, i: nat)
    requires IsRun(w, s, steps)
    decreases |steps|
  {
    steps != [] &&
    var t := Next(w, s, steps[0]);
    if i < |t.seen| then steps[0].event.Gate? && s.queue != [] && IsFull(w, s, s.queue[0].id, steps[0].now)
    else IsDroppedOnFull(w, t, steps[1..], i)
  }

  /** On every run, a fire is dropped only at a moment when the log has the cap of the job's rows in the hour before. */
  lemma {:induction false} DropsAreJustified(w: World, s: State, steps: seq<Step>, i: nat)
    requires IsRun(w, s, steps) && |s.seen| <= i < |Final(w, s, steps).seen|
    requires Final(w, s, steps).seen[i].Fired? && !Final(w, s, steps).seen[i].passed
    ensures IsDroppedOnFull(w, s, steps, i)
    decreases |steps|
  {
    if steps != [] {
      var t := Next(w, s, steps[0]);
      if i < |t.seen| {
        SeenStays(w, t, steps[1..], i);
        if steps[0].event.Gate? {
          PassedRowsAreCounted(s.tb.fires, s.queue[0].id, steps[0].now);
        }
      } else {
        DropsAreJustified(w, t, steps[1..], i);
      }
    }
  }

  lemma {:induction false} SeenStays(w: World, s: State, steps: seq<Step>, i: nat)
    requires IsRun(w, s, steps) && i < |s.seen|
    ensures i < |Final(w, s, steps).seen| && Final(w, s, steps).seen[i] == s.seen[i]
    decreases |steps|
  {
    if steps != [] {
      SeenStays(w, Next(w, s, steps[0]), steps[1..], i);
    }
  }

  // ---------------------------------------------------------------------------
  // Reports
  // ---------------------------------------------------------------------------

  predicate HasReported(w: World, s: State, id: RowId, now: Instant) {
    |ReportedRows(s.tb.fires, id, now)| >= w.cfg.maxReports
  }

  /** A decision about a fire, by the log: reported exactly when it failed and there is room; stored as it was, or as suppressed. */
  ghost predicate IsRightDecision(w: World, s: State, now: Instant, d: Current) {
    && s.current.Gated? && d.Decided?
    && d.snap == s.current.snap && d.fireTs == s.current.fireTs && d.raw == s.current.raw && d.now == now
    && (d.emit <==> d.raw != Ok && !HasReported(w, s, d.snap.id, now))
    && d.stored == (if d.raw == Ok || d.emit then d.raw else SuppressedReport)
  }

  lemma DecideIsExact(w: World, s: State, step: Step)
    requires Enabled(w, s, step) && step.event.Decide?
    ensures IsRightDecision(w, s, step.now, Next(w, s, step).current)
  {
    ReportedRowsAreCounted(s.tb.fires, s.current.snap.id, step.now);
  }

  /** What a booking shows and logs: the fire, its report if one was decided, and one row with the outcome decided on. */
  lemma CommitIsExact(w: World, s: State, step: Step)
    requires Enabled(w, s, step) && step.event.Commit? && s.current.snap.id in s.tb.jobs
    ensures var c, t := s.current, Next(w, s, step);
            && t.seen == s.seen + ([Booked(c.snap.job.uuid, c.raw == Ok)] +
               (if c.emit then [Reported(c.snap.job.uuid, c.fireTs, c.now, s.tb.jobs[c.snap.id].uuid == c.snap.job.uuid)] else []))
            && forall f: Fire :: f in t.tb.fires <==>
                 && (f in s.tb.fires || f == Fire(c.snap.id, c.fireTs / 1_000_000_000, c.stored))
                 && !(f.job == c.snap.id && f.at < (c.now - 86_400_000_000_000) / 1_000_000_000)
  {
    var c := s.current;
    PruneIsSublist(s.tb.fires + [Fire(c.snap.id, ToDb(c.fireTs), c.stored)], c.snap.id, ToDb(c.now - DAY));
  }

  /** Along the run, the decision was taken at a moment when the log had the cap of reported rows in the hour before. */
  ghost predicate WasSilenced(w: World, s: State, steps: seq<Step>, d: Current)
    requires IsRun(w, s, steps) && d.Decided?
    decreases |steps|
  {
    steps != [] &&
    var t := Next(w, s, steps[0]);
    || (steps[0].event.Decide? && t.current == d && HasReported(w, s, d.snap.id, d.now))
    || WasSilenced(w, t, steps[1..], d)
  }

  lemma {:induction false} SilenceIsJustified(w: World, s: State, steps: seq<Step>)
    requires IsRun(w, s, steps) && Final(w, s, steps).current.Decided?
    requires Final(w, s, steps).current.raw != Ok && !Final(w, s, steps).current.emit
    ensures s.current == Final(w, s, steps).current || WasSilenced(w, s, steps, Final(w, s, steps).current)
    decreases |steps|
  {
    if steps != [] {
      var t := Next(w, s, steps[0]);
      SilenceIsJustified(w, t, steps[1..]);
      if steps[0].event.Decide? {
        DecideIsExact(w, s, steps[0]);
      }
    }
  }

  /** On every run, a failure is booked without a report only if it was decided on a full hour. */
  lemma SilentFailuresMetAFullHour(w: World, s: State, steps: seq<Step>, step: Step)
    requires Init(s) && IsRun(w, s, steps) && Enabled(w, Final(w, s, steps), step) && step.event.Commit?
    requires var c := Final(w, s, steps).current;
             Shown(Final(w, s, steps), step) == [Booked(c.snap.job.uuid, false)]
    ensures WasSilenced(w, s, steps, Final(w, s, steps).current)
  {
    SilenceIsJustified(w, s, steps);
  }

  // ---------------------------------------------------------------------------
  // The scan
  // ---------------------------------------------------------------------------

  /** A scan takes exactly the enabled jobs whose time has come, each once, as they are, the earliest first. */
  lemma ScanIsExact(w: World, s: State, step: Step, id: RowId)
    requires Enabled(w, s, step) && step.event.Scan?
    ensures var queue := Next(w, s, step).queue;
            && (id in s.tb.jobs && s.tb.jobs[id].enabled && s.tb.jobs[id].nextFire * 1_000_000_000 <= step.now <==>
                  exists i :: 0 <= i < |queue| && queue[i].id == id)
            && (forall i | 0 <= i < |queue| && queue[i].id == id :: id in s.tb.jobs && queue[i].job == s.tb.jobs[id])
            && (forall i, j | 0 <= i < j < |queue| :: queue[i].id != queue[j].id && queue[i].job.nextFire <= queue[j].job.nextFire)
  {
    var due := step.event.due;
    if id in s.tb.jobs && IsDue(s.tb.jobs[id], step.now) {
      assert Snapshot(id, s.tb.jobs[id]) in due;
    }
  }
}
