/**
 The two sliding-window limiters. Both count rows of one log that is pruned, cascaded on delete and written
 with overridden outcomes; both are shown to bound what an observer sees.
 */
module RateLimits {
  import opened CronSchedule
  import opened JobTables
  import opened CatchUp
  import opened Scheduler
  import opened Identities

  /** What a limiter limits, as an observer sees it: fires past the gate, and ordinary error reports. */
  predicate Hits(limit: Limit, o: Observation, uuid: Uuid, from: Instant) {
    && o.uuid == uuid
    && match limit
       case FireLimit => o.Fired? && o.passed && o.at >= from
       case ReportLimit => o.Reported? && o.fireTs >= from
  }

  /** A fire past the gate that the process did not live to log. */
  predicate IsLoss(limit: Limit, o: Observation, uuid: Uuid, from: Instant) {
    limit == FireLimit && o.Lost? && o.passed && o.uuid == uuid && o.at >= from
  }

  function Weight(limit: Limit, o: Observation, uuid: Uuid, from: Instant): int {
    if Hits(limit, o, uuid, from) then 1 else if IsLoss(limit, o, uuid, from) then -1 else 0
  }

  /** What was seen since `from`, less what was lost: what the log has to account for. */
  function CountSeen(limit: Limit, seen: seq<Observation>, uuid: Uuid, from: Instant): int {
    if seen == [] then 0
    else
      var n := |seen| - 1;
      CountSeen(limit, seen[..n], uuid, from) + Weight(limit, seen[n], uuid, from)
  }

  lemma CountSeenSnoc(limit: Limit, seen: seq<Observation>, o: Observation, uuid: Uuid, from: Instant)
    ensures CountSeen(limit, seen + [o], uuid, from) == CountSeen(limit, seen, uuid, from) + Weight(limit, o, uuid, from)
  {
    assert (seen + [o])[..|seen|] == seen;
  }

  lemma {:induction false} CountSeenAppend(limit: Limit, seen: seq<Observation>, more: seq<Observation>, uuid: Uuid, from: Instant)
    ensures CountSeen(limit, seen + more, uuid, from) == CountSeen(limit, seen, uuid, from) + CountSeen(limit, more, uuid, from)
  {
    if more == [] {
      assert seen + more == seen;
    } else {
      var n := |more| - 1;
      CountSeenAppend(limit, seen, more[..n], uuid, from);
      assert (seen + more)[..|seen| + n] == seen + more[..n];
    }
  }

  lemma {:induction false} CountSeenZero(limit: Limit, seen: seq<Observation>, uuid: Uuid, from: Instant)
    requires forall i | 0 <= i < |seen| :: seen[i].uuid != uuid
    ensures CountSeen(limit, seen, uuid, from) == 0
  {
    if seen != [] {
      CountSeenZero(limit, seen[..|seen| - 1], uuid, from);
    }
  }

  /** A fire that has passed the gate and whose row is not in the log yet. */
  function InFlight(limit: Limit, s: State, uuid: Uuid, from: Instant): nat {
    if limit == FireLimit && IsFiring(s.current) && s.current.raw != RateLimit
       && s.current.snap.job.uuid == uuid && s.current.fireTs >= from
    then 1 else 0
  }

  /** The log and the fire in progress account for all that was seen of a job since `from` and not lost. */
  predicate Covered(limit: Limit, s: State, id: RowId, from: Instant)
    requires id in s.tb.jobs
  {
    CountSeen(limit, s.seen, s.tb.jobs[id].uuid, from)
      <= CountRows(limit, s.tb.fires, id, ToDb(from)) + InFlight(limit, s, s.tb.jobs[id].uuid, from)
  }

  /** The log accounts for the last hour of every job. */
  ghost predicate LogCovers(limit: Limit, s: State) {
    forall id, from {:trigger Covered(limit, s, id, from)} | id in s.tb.jobs && s.clock - HOUR <= from :: Covered(limit, s, id, from)
  }

  /** What the decision about a fire fixes. */
  ghost predicate DecisionOk(w: World, s: State) {
    && (IsFiring(s.current) ==> s.current.raw != SuppressedReport)
    && (s.current.Decided? ==>
          && s.current.now <= s.clock
          && (s.current.raw != RateLimit ==> s.current.stored != RateLimit)
          && (s.current.emit ==> Counts(ReportLimit, s.current.stored))
          && (s.current.emit && HasRow(s.tb, s.current.snap.id, s.current.snap.job.uuid) ==>
                CountSeen(ReportLimit, s.seen, s.current.snap.job.uuid, s.current.now - HOUR) < w.cfg.maxReports))
  }

  // ---------------------------------------------------------------------------
  // Every step keeps the log's account
  // ---------------------------------------------------------------------------

  lemma {:induction false} CatchUpGrowsLog(limit: Limit, lib: CronLib, tb: Tables, due: seq<Snapshot>, now: Instant, id: RowId, from: Stamp)
    ensures CountRows(limit, CatchUpAll(lib, tb, due, now).fires, id, from) >= CountRows(limit, tb.fires, id, from)
    decreases |due|
  {
    if due != [] {
      var next := CatchUpOne(lib, tb, due[0], now);
      CountRowsSnoc(limit, tb.fires, Fire(due[0].id, ToDb(now), ActionError), id, from);
      CatchUpGrowsLog(limit, lib, next, due[1..], now, id, from);
    }
  }

  lemma GateCovers(limit: Limit, w: World, s: State, step: Step, id: RowId, from: Instant)
    requires WellFormed(s) && Enabled(w, s, step) && step.event.Gate?
    requires id in s.tb.jobs && Covered(limit, s, id, from)
    ensures id in Next(w, s, step).tb.jobs && Covered(limit, Next(w, s, step), id, from)
  {
    CountSeenSnoc(limit, s.seen, Shown(s, step)[0], s.tb.jobs[id].uuid, from);
  }

  /** A booked fire: its row replaces it in the account, and pruning removes only rows older than a day. */
  lemma CommitCovers(limit: Limit, w: World, s: State, step: Step, id: RowId, from: Instant)
    requires WellFormed(s) && DecisionOk(w, s) && Enabled(w, s, step) && step.event.Commit?
    requires id in s.tb.jobs && Covered(limit, s, id, from) && step.now - HOUR <= from
    ensures id in Next(w, s, step).tb.jobs && Covered(limit, Next(w, s, step), id, from)
  {
    var t, c, uuid := Next(w, s, step), s.current, s.tb.jobs[id].uuid;
    if c.snap.id in s.tb.jobs {
      CommitSeen(limit, s, step, uuid, from);
      CommitRows(limit, s, id, from);
      assert uuid == c.snap.job.uuid ==> HasRow(s.tb, id, c.snap.job.uuid) && id == c.snap.id;
      assert c.fireTs >= from ==> ToDb(c.fireTs) >= ToDb(from);
    } else {
      assert t.seen == s.seen;
      assert uuid == c.snap.job.uuid ==> HasRow(s.tb, id, c.snap.job.uuid);
    }
  }

  lemma CommitSeen(limit: Limit, s: State, step: Step, uuid: Uuid, from: Instant)
    requires step.event.Commit? && s.current.Decided? && s.current.snap.id in s.tb.jobs
    ensures CountSeen(limit, s.seen + Shown(s, step), uuid, from) == CountSeen(limit, s.seen, uuid, from) +
            if limit == ReportLimit && s.current.emit && s.current.snap.job.uuid == uuid && s.current.fireTs >= from then 1 else 0
  {
    var c := s.current;
    var own := HasRow(s.tb, c.snap.id, c.snap.job.uuid);
    CountSeenAppend(limit, s.seen, CommitNotes(c, own), uuid, from);
    CountCommitNotes(limit, c, own, uuid, from);
  }

  lemma CountCommitNotes(limit: Limit, c: Current, own: bool, uuid: Uuid, from: Instant)
    requires c.Decided?
    ensures CountSeen(limit, CommitNotes(c, own), uuid, from) ==
            if limit == ReportLimit && c.emit && c.snap.job.uuid == uuid && c.fireTs >= from then 1 else 0
  {
    var booked := Booked(c.snap.job.uuid, c.raw == Ok);
    CountSeenSnoc(limit, [], booked, uuid, from);
    CountSeenSnoc(limit, [booked], Reported(c.snap.job.uuid, c.fireTs, c.now, own), uuid, from);
    assert [] + [booked] == [booked];
  }

  lemma CommitRows(limit: Limit, s: State, id: RowId, from: Instant)
    requires s.current.Decided? && s.current.now - DAY <= from
    ensures var c := s.current;
            var row := Fire(c.snap.id, ToDb(c.fireTs), c.stored);
            CountRows(limit, Prune(s.tb.fires + [row], c.snap.id, ToDb(c.now - DAY)), id, ToDb(from)) ==
            CountRows(limit, s.tb.fires, id, ToDb(from)) + if CountsRow(limit, row, id, ToDb(from)) then 1 else 0
  {
    var c := s.current;
    var row := Fire(c.snap.id, ToDb(c.fireTs), c.stored);
    PruneKeepsWindow(limit, s.tb.fires + [row], c.snap.id, ToDb(c.now - DAY), id, ToDb(from));
    CountRowsSnoc(limit, s.tb.fires, row, id, ToDb(from));
  }

  /** A fire that runs out of occurrences is logged too, as a fire that passed the gate. */
  lemma UnsatisfiableCovers(limit: Limit, w: World, s: State, step: Step, id: RowId, from: Instant)
    requires WellFormed(s) && Enabled(w, s, step) && step.event.Unsatisfiable?
    requires id in s.tb.jobs && Covered(limit, s, id, from)
    ensures id in Next(w, s, step).tb.jobs && Covered(limit, Next(w, s, step), id, from)
  {
    var c, uuid := s.current, s.tb.jobs[id].uuid;
    QuietSeen(limit, s, step, uuid, from);
    if c.snap.id in s.tb.jobs {
      var row := Fire(c.snap.id, ToDb(c.fireTs), if c.raw == Ok then ActionError else c.raw);
      CountRowsSnoc(limit, s.tb.fires, row, id, ToDb(from));
      LoggedInstead(limit, s, id, from, row);
    } else {
      assert uuid == c.snap.job.uuid ==> HasRow(s.tb, id, c.snap.job.uuid);
    }
  }

  /** The row of a fire counts where the fire itself did. */
  lemma LoggedInstead(limit: Limit, s: State, id: RowId, from: Instant, row: Fire)
    requires WellFormed(s) && IsFiring(s.current) && id in s.tb.jobs
    requires row.job == s.current.snap.id && row.at == ToDb(s.current.fireTs) && (s.current.raw != RateLimit ==> row.outcome != RateLimit)
    ensures InFlight(limit, s, s.tb.jobs[id].uuid, from) <= if CountsRow(limit, row, id, ToDb(from)) then 1 else 0
  {
    var c := s.current;
    assert s.tb.jobs[id].uuid == c.snap.job.uuid ==> HasRow(s.tb, id, c.snap.job.uuid);
    assert c.fireTs >= from ==> ToDb(c.fireTs) >= ToDb(from);
  }

  /** A fire lost to a restart leaves the account on both sides. */
  lemma RestartCovers(limit: Limit, w: World, s: State, step: Step, id: RowId, from: Instant)
    requires Enabled(w, s, step) && step.event.Restart?
    requires id in s.tb.jobs && Covered(limit, s, id, from)
    ensures id in Next(w, s, step).tb.jobs && Covered(limit, Next(w, s, step), id, from)
  {
    RestartSeen(limit, s, step, s.tb.jobs[id].uuid, from);
  }

  lemma RestartSeen(limit: Limit, s: State, step: Step, uuid: Uuid, from: Instant)
    requires step.event.Restart?
    ensures CountSeen(limit, s.seen + Shown(s, step), uuid, from) == CountSeen(limit, s.seen, uuid, from) - InFlight(limit, s, uuid, from)
  {
    if IsFiring(s.current) {
      CountSeenSnoc(limit, s.seen, Lost(s.current.snap.job.uuid, s.current.fireTs, s.current.raw != RateLimit), uuid, from);
    } else {
      assert s.seen + [] == s.seen;
    }
  }

  /** All other steps leave a kept row's account alone, or add rows to it. */
  lemma QuietCovers(limit: Limit, w: World, s: State, step: Step, id: RowId, from: Instant)
    requires WellFormed(s) && Enabled(w, s, step)
    requires !step.event.Gate? && !step.event.Commit? && !step.event.Unsatisfiable? && !step.event.Restart?
    requires id in s.tb.jobs && id in Next(w, s, step).tb.jobs && Kept(s, Next(w, s, step), id)
    requires Covered(limit, s, id, from)
    ensures Covered(limit, Next(w, s, step), id, from)
  {
    QuietSeen(limit, s, step, s.tb.jobs[id].uuid, from);
    match step.event
    case DeleteWrite(call, target) =>
      if Reaches(s, call, target) {
        CascadeKeepsOthers(limit, s.tb.fires, target, id, ToDb(from));
      }
    case Catchup(start, due) => CatchUpGrowsLog(limit, w.lib, s.tb, due, start, id, ToDb(from));
    case _ =>
  }

  /** Steps other than these show nothing that a limiter counts. */
  lemma QuietSeen(limit: Limit, s: State, step: Step, uuid: Uuid, from: Instant)
    requires !step.event.Gate? && !step.event.Commit? && (step.event.Restart? ==> limit == ReportLimit)
    ensures CountSeen(limit, s.seen + Shown(s, step), uuid, from) == CountSeen(limit, s.seen, uuid, from)
  {
    QuietNote(s, step);
    if Shown(s, step) == [] {
      assert s.seen + [] == s.seen;
    } else {
      CountSeenSnoc(limit, s.seen, Shown(s, step)[0], uuid, from);
    }
  }

  lemma QuietNote(s: State, step: Step)
    requires !step.event.Gate? && !step.event.Commit?
    ensures var more := Shown(s, step);
            more == [] || (more == [more[0]] && (more[0].Reenabled? || (more[0].Lost? && step.event.Restart?)))
  {
  }

  lemma StepKeepsLogCovers(limit: Limit, w: World, s: State, step: Step)
    requires WellFormed(s) && DecisionOk(w, s) && LogCovers(limit, s) && Enabled(w, s, step)
    ensures LogCovers(limit, Next(w, s, step))
  {
    var t := Next(w, s, step);
    StepKeepsWellFormed(w, s, step);
    forall id, from | id in t.tb.jobs && t.clock - HOUR <= from
      ensures Covered(limit, t, id, from)
    {
      if IsNew(s, t, id) {
        NewRowIsCovered(limit, w, s, step, id, from);
      } else {
        assert Kept(s, t, id) && Covered(limit, s, id, from);
        if step.event.Gate? {
          GateCovers(limit, w, s, step, id, from);
        } else if step.event.Commit? {
          CommitCovers(limit, w, s, step, id, from);
        } else if step.event.Unsatisfiable? {
          UnsatisfiableCovers(limit, w, s, step, id, from);
        } else if step.event.Restart? {
          RestartCovers(limit, w, s, step, id, from);
        } else {
          QuietCovers(limit, w, s, step, id, from);
        }
      }
    }
  }

  lemma NewRowIsCovered(limit: Limit, w: World, s: State, step: Step, id: RowId, from: Instant)
    requires WellFormed(s) && Enabled(w, s, step)
    requires id in Next(w, s, step).tb.jobs && IsNew(s, Next(w, s, step), id)
    ensures Covered(limit, Next(w, s, step), id, from)
  {
    var t := Next(w, s, step);
    OnlyCreateAdds(w, s, step);
    CountSeenZero(limit, t.seen, t.tb.jobs[id].uuid, from);
  }

  // ---------------------------------------------------------------------------
  // What the gate and the report decision saw when they let something through
  // ---------------------------------------------------------------------------

  /** When this fire was let through, fewer than the cap had been seen since any moment of the hour before. */
  ghost predicate FireWithinCap(w: World, seen: seq<Observation>, i: nat)
    requires i < |seen| && seen[i].Fired?
  {
    forall from | seen[i].at - HOUR <= from :: CountSeen(FireLimit, seen[..i], seen[i].uuid, from) < w.cfg.maxFires
  }

  /** When this was seen, fewer than the cap had been seen of the same job in the hour before. */
  ghost predicate WithinCap(w: World, seen: seq<Observation>, i: nat)
    requires i < |seen|
  {
    var o := seen[i];
    && (o.Fired? && o.passed && o.live ==> FireWithinCap(w, seen, i))
    && (o.Reported? && o.own ==> CountSeen(ReportLimit, seen[..i], o.uuid, o.at - HOUR) < w.cfg.maxReports)
  }

  ghost predicate AllWithinCap(w: World, seen: seq<Observation>) {
    forall i | 0 <= i < |seen| :: WithinCap(w, seen, i)
  }

  lemma WithinCapGrows(w: World, seen: seq<Observation>, o: Observation)
    requires AllWithinCap(w, seen) && WithinCap(w, seen + [o], |seen|)
    ensures AllWithinCap(w, seen + [o])
  {
    var more := seen + [o];
    forall i | 0 <= i < |more|
      ensures WithinCap(w, more, i)
    {
      if i < |seen| {
        assert more[..i] == seen[..i] && more[i] == seen[i] && WithinCap(w, seen, i);
      }
    }
  }

  ghost predicate LimitsHold(w: World, s: State) {
    && WellFormed(s) && DecisionOk(w, s)
    && LogCovers(FireLimit, s) && LogCovers(ReportLimit, s)
    && AllWithinCap(w, s.seen)
  }

  lemma GateStaysWithinCap(w: World, s: State, step: Step)
    requires LimitsHold(w, s) && Enabled(w, s, step) && step.event.Gate?
    ensures AllWithinCap(w, Next(w, s, step).seen)
  {
    var snap, o := s.queue[0], Shown(s, step)[0];
    assert (s.seen + [o])[..|s.seen|] == s.seen;
    if o.passed && o.live {
      forall from | o.at - HOUR <= from
        ensures CountSeen(FireLimit, s.seen, o.uuid, from) < w.cfg.maxFires
      {
        assert Covered(FireLimit, s, snap.id, from);
        LaterCountsLess(FireLimit, s.tb.fires, snap.id, ToDb(o.at - HOUR), ToDb(from));
      }
    }
    WithinCapGrows(w, s.seen, o);
  }

  lemma {:induction false} LaterCountsLess(limit: Limit, fires: seq<Fire>, id: RowId, from: Stamp, later: Stamp)
    requires from <= later
    ensures CountRows(limit, fires, id, later) <= CountRows(limit, fires, id, from)
  {
    if fires != [] {
      LaterCountsLess(limit, fires[..|fires| - 1], id, from, later);
    }
  }

  lemma CommitStaysWithinCap(w: World, s: State, step: Step)
    requires LimitsHold(w, s) && Enabled(w, s, step) && step.event.Commit?
    ensures AllWithinCap(w, Next(w, s, step).seen)
  {
    var c := s.current;
    if c.snap.id in s.tb.jobs {
      var booked := Booked(c.snap.job.uuid, c.raw == Ok);
      var report := Reported(c.snap.job.uuid, c.fireTs, c.now, HasRow(s.tb, c.snap.id, c.snap.job.uuid));
      var seen := s.seen + [booked];
      WithinCapGrows(w, s.seen, booked);
      assert (seen + [report])[..|seen|] == seen;
      CountSeenSnoc(ReportLimit, s.seen, booked, c.snap.job.uuid, c.now - HOUR);
      if c.emit {
        WithinCapGrows(w, seen, report);
        assert s.seen + [booked, report] == seen + [report];
      }
    } else {
      assert s.seen + [] == s.seen;
    }
  }

  lemma OthersStayWithinCap(w: World, s: State, step: Step)
    requires LimitsHold(w, s) && Enabled(w, s, step) && !step.event.Gate? && !step.event.Commit?
    ensures AllWithinCap(w, Next(w, s, step).seen)
  {
    var more := Shown(s, step);
    if more == [] {
      assert s.seen + more == s.seen;
    } else {
      assert more == [more[0]];
      WithinCapGrows(w, s.seen, more[0]);
    }
  }

  /** The decision to report is taken on a count that covers every report seen so far. */
  lemma StepKeepsDecision(w: World, s: State, step: Step)
    requires WellFormed(s) && DecisionOk(w, s) && LogCovers(ReportLimit, s) && Enabled(w, s, step)
    ensures DecisionOk(w, Next(w, s, step))
  {
    if step.event.Decide? {
      DecideIsOk(w, s, step);
    } else if Next(w, s, step).current.Decided? {
      DecisionStays(w, s, step);
    }
  }

  /** A report is decided on while the log shows room for it, and the log covers what was seen. */
  lemma DecideCounts(w: World, s: State, now: Instant)
    requires s.current.Gated? && LogCovers(ReportLimit, s) && s.clock <= now
    requires HasRow(s.tb, s.current.snap.id, s.current.snap.job.uuid)
    requires CountInWindow(ReportLimit, s.tb.fires, s.current.snap.id, now) < w.cfg.maxReports
    ensures CountSeen(ReportLimit, s.seen, s.current.snap.job.uuid, now - HOUR) < w.cfg.maxReports
  {
    assert Covered(ReportLimit, s, s.current.snap.id, now - HOUR);
  }

  lemma DecideIsOk(w: World, s: State, step: Step)
    requires WellFormed(s) && DecisionOk(w, s) && LogCovers(ReportLimit, s) && Enabled(w, s, step) && step.event.Decide?
    ensures DecisionOk(w, Next(w, s, step))
  {
    var snap := s.current.snap;
    assert Next(w, s, step).seen == s.seen;
    if HasRow(s.tb, snap.id, snap.job.uuid) && CountInWindow(ReportLimit, s.tb.fires, snap.id, step.now) < w.cfg.maxReports {
      DecideCounts(w, s, step.now);
    }
  }

  lemma DecisionStays(w: World, s: State, step: Step)
    requires WellFormed(s) && DecisionOk(w, s) && Enabled(w, s, step) && !step.event.Decide?
    requires Next(w, s, step).current.Decided?
    ensures DecisionOk(w, Next(w, s, step))
  {
    var snap, t := s.current.snap, Next(w, s, step);
    QuietSeen(ReportLimit, s, step, snap.job.uuid, s.current.now - HOUR);
    StepEvolves(w, s, step);
    if HasRow(t.tb, snap.id, snap.job.uuid) {
      RowWasThere(s, t, snap.id, snap.job.uuid);
    }
  }

  lemma StepKeepsLimits(w: World, s: State, step: Step)
    requires LimitsHold(w, s) && Enabled(w, s, step)
    ensures LimitsHold(w, Next(w, s, step))
  {
    StepKeepsWellFormed(w, s, step);
    StepKeepsDecision(w, s, step);
    StepKeepsLogCovers(FireLimit, w, s, step);
    StepKeepsLogCovers(ReportLimit, w, s, step);
    if step.event.Gate? {
      GateStaysWithinCap(w, s, step);
    } else if step.event.Commit? {
      CommitStaysWithinCap(w, s, step);
    } else {
      OthersStayWithinCap(w, s, step);
    }
  }

  lemma {:induction false} RunKeepsLimits(w: World, s: State, steps: seq<Step>)
    requires LimitsHold(w, s) && IsRun(w, s, steps)
    ensures LimitsHold(w, Final(w, s, steps))
    decreases |steps|
  {
    if steps != [] {
      StepKeepsLimits(w, s, steps[0]);
      RunKeepsLimits(w, Next(w, s, steps[0]), steps[1..]);
    }
  }

  lemma InitHasLimits(w: World, s: State)
    requires Init(s)
    ensures LimitsHold(w, s)
  {
    InitIsWellFormed(s);
  }
}
