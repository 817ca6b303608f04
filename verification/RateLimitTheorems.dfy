/** The bounds the two limiters give over whole runs, and exactly when the fire cap is exceeded. */
module RateLimitTheorems {
  import opened CronSchedule
  import opened JobTables
  import opened Scheduler
  import opened Identities
  import opened RateLimits

  /** When the limited thing happened: the fire itself, or the fire a report is about. */
  function MomentOf(limit: Limit, o: Observation): Instant {
    match limit
    case FireLimit => if o.Fired? then o.at else 0
    case ReportLimit => if o.Reported? then o.fireTs else 0
  }

  /** How many fires past the gate, or reports, of a job fall in the closed window [lo, hi]. */
  function CountBetween(limit: Limit, seen: seq<Observation>, uuid: Uuid, lo: Instant, hi: Instant): nat {
    if seen == [] then 0
    else
      var n := |seen| - 1;
      CountBetween(limit, seen[..n], uuid, lo, hi) +
      if Hits(limit, seen[n], uuid, lo) && MomentOf(limit, seen[n]) <= hi then 1 else 0
  }

  lemma BetweenSnoc(limit: Limit, seen: seq<Observation>, o: Observation, uuid: Uuid, lo: Instant, hi: Instant)
    ensures CountBetween(limit, seen + [o], uuid, lo, hi) ==
            CountBetween(limit, seen, uuid, lo, hi) + if Hits(limit, o, uuid, lo) && MomentOf(limit, o) <= hi then 1 else 0
  {
    assert (seen + [o])[..|seen|] == seen;
  }

  /** A fire that passed the gate although its job had been deleted. */
  predicate IsGhost(o: Observation, uuid: Uuid) {
    o.Fired? && o.passed && !o.live && o.uuid == uuid
  }

  function CountGhosts(seen: seq<Observation>, uuid: Uuid): nat {
    if seen == [] then 0
    else
      var n := |seen| - 1;
      CountGhosts(seen[..n], uuid) + if IsGhost(seen[n], uuid) then 1 else 0
  }

  /** How many fires past the gate in the window were lost to a crash. */
  function CountLost(seen: seq<Observation>, uuid: Uuid, lo: Instant, hi: Instant): nat {
    if seen == [] then 0
    else
      var n := |seen| - 1;
      CountLost(seen[..n], uuid, lo, hi) + if IsLoss(FireLimit, seen[n], uuid, lo) && seen[n].at <= hi then 1 else 0
  }

  // ---------------------------------------------------------------------------
  // From what the gate saw to every window of an hour
  // ---------------------------------------------------------------------------

  /** Fires come in the order of the clock, after any that were lost. */
  ghost predicate InClockOrder(seen: seq<Observation>) {
    forall i, j | 0 <= i < j < |seen| && (seen[i].Fired? || seen[i].Lost?) && seen[j].Fired? :: seen[i].at <= seen[j].at
  }

  /** Everything seen was over by `hi`. */
  ghost predicate AllBy(seen: seq<Observation>, hi: Instant) {
    forall i | 0 <= i < |seen| && (seen[i].Fired? || seen[i].Lost?) :: seen[i].at <= hi
  }

  lemma {:induction false} FiresAreKeptOrLost(seen: seq<Observation>, uuid: Uuid, lo: Instant, hi: Instant)
    requires AllBy(seen, hi)
    ensures CountBetween(FireLimit, seen, uuid, lo, hi) == CountSeen(FireLimit, seen, uuid, lo) + CountLost(seen, uuid, lo, hi)
  {
    if seen != [] {
      FiresAreKeptOrLost(seen[..|seen| - 1], uuid, lo, hi);
    }
  }

  lemma PrefixIsSound(w: World, seen: seq<Observation>, n: nat)
    requires AllWithinCap(w, seen) && InClockOrder(seen) && n <= |seen|
    ensures AllWithinCap(w, seen[..n]) && InClockOrder(seen[..n])
    ensures n < |seen| && seen[n].Fired? ==> AllBy(seen[..n], seen[n].at)
  {
    forall i | 0 <= i < n
      ensures WithinCap(w, seen[..n], i)
    {
      assert WithinCap(w, seen, i);
      assert seen[..n][..i] == seen[..i] && seen[..n][i] == seen[i];
    }
  }

  /** A fire let through on a live row finds fewer than the cap in the hour before, but for those lost. */
  lemma LiveFireIsWithinCap(w: World, seen: seq<Observation>, n: nat, lo: Instant)
    requires AllWithinCap(w, seen) && InClockOrder(seen) && n < |seen|
    requires seen[n].Fired? && seen[n].passed && seen[n].live && seen[n].at - HOUR <= lo
    ensures var hi := seen[n].at;
            CountBetween(FireLimit, seen[..n], seen[n].uuid, lo, hi) < w.cfg.maxFires + CountLost(seen[..n], seen[n].uuid, lo, hi)
  {
    PrefixIsSound(w, seen, n);
    FiresAreKeptOrLost(seen[..n], seen[n].uuid, lo, seen[n].at);
    assert WithinCap(w, seen, n);
  }

  /** Widening the window, or seeing more, counts no less. */
  lemma {:induction false} WiderCountsMore(seen: seq<Observation>, n: nat, uuid: Uuid, lo: Instant, hi: Instant, lo': Instant, hi': Instant)
    requires n <= |seen| && lo' <= lo && hi <= hi'
    ensures CountBetween(FireLimit, seen[..n], uuid, lo, hi) <= CountBetween(FireLimit, seen, uuid, lo', hi')
    ensures CountLost(seen[..n], uuid, lo, hi) <= CountLost(seen, uuid, lo', hi')
    decreases |seen|
  {
    if seen != [] {
      var k := |seen| - 1;
      if n == |seen| {
        assert seen[..n] == seen;
        WiderCountsMore(seen[..k], k, uuid, lo, hi, lo', hi');
        assert seen[..k][..k] == seen[..k];
      } else {
        WiderCountsMore(seen[..k], n, uuid, lo, hi, lo', hi');
        assert seen[..k][..n] == seen[..n];
      }
    }
  }

  lemma {:induction false} EveryWindowIsBounded(w: World, seen: seq<Observation>, uuid: Uuid, lo: Instant)
    requires AllWithinCap(w, seen) && InClockOrder(seen)
    ensures CountBetween(FireLimit, seen, uuid, lo, lo + HOUR) <=
            w.cfg.maxFires + CountGhosts(seen, uuid) + CountLost(seen, uuid, lo, lo + HOUR)
  {
    if seen != [] {
      var n := |seen| - 1;
      var o := seen[n];
      PrefixIsSound(w, seen, n);
      EveryWindowIsBounded(w, seen[..n], uuid, lo);
      if Hits(FireLimit, o, uuid, lo) && o.at <= lo + HOUR && o.live {
        LiveFireIsWithinCap(w, seen, n, lo);
        SameWithin(seen[..n], uuid, lo, o.at, lo + HOUR);
      }
    }
  }

  lemma {:induction false} SameWithin(seen: seq<Observation>, uuid: Uuid, lo: Instant, hi: Instant, hi': Instant)
    requires AllBy(seen, hi) && hi <= hi'
    ensures CountBetween(FireLimit, seen, uuid, lo, hi') == CountBetween(FireLimit, seen, uuid, lo, hi)
    ensures CountLost(seen, uuid, lo, hi') == CountLost(seen, uuid, lo, hi)
  {
    if seen != [] {
      SameWithin(seen[..|seen| - 1], uuid, lo, hi, hi');
    }
  }

  // ---------------------------------------------------------------------------
  // Exactly when the cap is exceeded
  // ---------------------------------------------------------------------------

  predicate ExceedsFrom(seen: seq<Observation>, uuid: Uuid, cap: nat, lo: Instant) {
    CountBetween(FireLimit, seen, uuid, lo, lo + HOUR) > cap
  }

  /** Some closed window of an hour holds more fires of the job past the gate than the cap. */
  ghost predicate Exceeds(seen: seq<Observation>, uuid: Uuid, cap: nat) {
    exists lo :: ExceedsFrom(seen, uuid, cap, lo)
  }

  /**
   The gate decided blindly: it let a fire through when as many as the cap had been let through in the hour before,
   because the job had been deleted, and its log with it, or because a crash had kept a fire out of the log.
   */
  predicate IsBlind(seen: seq<Observation>, uuid: Uuid, cap: nat, i: nat)
    requires i < |seen|
  {
    var o := seen[i];
    && o.Fired? && o.passed && o.uuid == uuid
    && CountBetween(FireLimit, seen[..i], uuid, o.at - HOUR, o.at) >= cap
    && (!o.live || CountLost(seen[..i], uuid, o.at - HOUR, o.at) > 0)
  }

  ghost predicate HasBlindFire(seen: seq<Observation>, uuid: Uuid, cap: nat) {
    exists i :: 0 <= i < |seen| && IsBlind(seen, uuid, cap, i)
  }

  lemma BlindExceeds(seen: seq<Observation>, uuid: Uuid, cap: nat, i: nat)
    requires i < |seen| && IsBlind(seen, uuid, cap, i)
    ensures Exceeds(seen, uuid, cap)
  {
    var o := seen[i];
    var lo := o.at - HOUR;
    BetweenSnoc(FireLimit, seen[..i], o, uuid, lo, lo + HOUR);
    assert seen[..i] + [o] == seen[..i + 1];
    WiderCountsMore(seen, i + 1, uuid, lo, lo + HOUR, lo, lo + HOUR);
    assert ExceedsFrom(seen, uuid, cap, lo);
  }

  /** In a window over the cap, some fire was let through blindly. */
  lemma {:induction false} ExcessIsBlind(w: World, seen: seq<Observation>, uuid: Uuid, lo: Instant) returns (i: nat)
    requires AllWithinCap(w, seen) && InClockOrder(seen)
    requires CountBetween(FireLimit, seen, uuid, lo, lo + HOUR) > w.cfg.maxFires
    ensures i < |seen| && IsBlind(seen, uuid, w.cfg.maxFires, i)
    decreases |seen|
  {
    var n := |seen| - 1;
    var o := seen[n];
    PrefixIsSound(w, seen, n);
    if CountBetween(FireLimit, seen[..n], uuid, lo, lo + HOUR) > w.cfg.maxFires {
      i := ExcessIsBlind(w, seen[..n], uuid, lo);
      assert seen[..n][..i] == seen[..i];
    } else {
      i := n;
      SameWithin(seen[..n], uuid, lo, o.at, lo + HOUR);
      WiderCountsMore(seen[..n], n, uuid, lo, o.at, o.at - HOUR, o.at);
      assert seen[..n][..n] == seen[..n];
      if o.live {
        LiveFireIsWithinCap(w, seen, n, lo);
      }
    }
  }

  lemma ExceedsExactly(w: World, seen: seq<Observation>, uuid: Uuid)
    requires AllWithinCap(w, seen) && InClockOrder(seen)
    ensures Exceeds(seen, uuid, w.cfg.maxFires) <==> HasBlindFire(seen, uuid, w.cfg.maxFires)
  {
    if Exceeds(seen, uuid, w.cfg.maxFires) {
      var lo :| ExceedsFrom(seen, uuid, w.cfg.maxFires, lo);
      var i := ExcessIsBlind(w, seen, uuid, lo);
    } else if HasBlindFire(seen, uuid, w.cfg.maxFires) {
      var i :| 0 <= i < |seen| && IsBlind(seen, uuid, w.cfg.maxFires, i);
      BlindExceeds(seen, uuid, w.cfg.maxFires, i);
    }
  }

  // ---------------------------------------------------------------------------
  // A deleted job fires at most once more, and reports at most once more
  // ---------------------------------------------------------------------------

  /** The job has no row and no snapshot waiting. */
  ghost predicate IsGone(s: State, uuid: Uuid) {
    && (forall id :: !HasRow(s.tb, id, uuid))
    && (forall i | 0 <= i < |s.queue| :: s.queue[i].job.uuid != uuid)
  }

  ghost predicate IsGoneForGood(s: State, uuid: Uuid) {
    IsGone(s, uuid) && (IsFiring(s.current) ==> s.current.snap.job.uuid != uuid)
  }

  /** A fire without a row, or a report booked on another job's row, is the last of its job. */
  ghost predicate LastOfJob(s: State, o: Observation) {
    && (o.Fired? && !o.live ==> IsGone(s, o.uuid))
    && (o.Reported? && !o.own ==> IsGoneForGood(s, o.uuid))
  }

  ghost predicate GhostsAreGone(s: State) {
    forall i | 0 <= i < |s.seen| :: LastOfJob(s, s.seen[i])
  }

  lemma GoneStaysGone(w: World, s: State, step: Step, uuid: Uuid)
    requires WellFormed(s) && Enabled(w, s, step) && uuid in s.used && IsGone(s, uuid)
    ensures IsGone(Next(w, s, step), uuid)
    ensures IsGoneForGood(s, uuid) ==> IsGoneForGood(Next(w, s, step), uuid)
  {
    var t := Next(w, s, step);
    StepEvolves(w, s, step);
    forall id
      ensures !HasRow(t.tb, id, uuid)
    {
      if HasRow(t.tb, id, uuid) {
        RowWasThere(s, t, id, uuid);
      }
    }
    forall i | 0 <= i < |t.queue|
      ensures t.queue[i].job.uuid != uuid
    {
      if step.event.Scan? {
        assert !HasRow(s.tb, t.queue[i].id, uuid);
      } else {
        assert t.queue[i] in s.queue;
      }
    }
  }

  lemma NewGhostIsGone(w: World, s: State, step: Step, o: Observation)
    requires WellFormed(s) && Enabled(w, s, step) && o in Shown(s, step)
    ensures LastOfJob(Next(w, s, step), o)
  {
    var t := Next(w, s, step);
    if (o.Fired? && !o.live) || (o.Reported? && !o.own) {
      var snap := if step.event.Gate? then s.queue[0] else s.current.snap;
      forall id
        ensures !HasRow(t.tb, id, o.uuid)
      {
        assert HasRow(s.tb, id, o.uuid) ==> id == snap.id;
      }
    }
  }

  lemma StepKeepsGhostsGone(w: World, s: State, step: Step)
    requires WellFormed(s) && GhostsAreGone(s) && Enabled(w, s, step)
    ensures GhostsAreGone(Next(w, s, step))
  {
    var t := Next(w, s, step);
    forall i | 0 <= i < |t.seen|
      ensures LastOfJob(t, t.seen[i])
    {
      if i < |s.seen| {
        assert LastOfJob(s, s.seen[i]);
        if IsGone(s, s.seen[i].uuid) {
          GoneStaysGone(w, s, step, s.seen[i].uuid);
        }
      } else {
        NewGhostIsGone(w, s, step, Shown(s, step)[i - |s.seen|]);
      }
    }
  }

  /** A job has at most one such fire. */
  ghost predicate OneGhostEach(s: State) {
    forall uuid :: CountGhosts(s.seen, uuid) <= 1
  }

  lemma {:induction false} NoGhosts(seen: seq<Observation>, uuid: Uuid)
    requires forall i | 0 <= i < |seen| :: !IsGhost(seen[i], uuid)
    ensures CountGhosts(seen, uuid) == 0
  {
    if seen != [] {
      NoGhosts(seen[..|seen| - 1], uuid);
    }
  }

  lemma {:induction false} NoGhostInNotes(seen: seq<Observation>, more: seq<Observation>, uuid: Uuid)
    requires forall i | 0 <= i < |more| :: !IsGhost(more[i], uuid)
    ensures CountGhosts(seen + more, uuid) == CountGhosts(seen, uuid)
  {
    if more == [] {
      assert seen + more == seen;
    } else {
      var n := |more| - 1;
      NoGhostInNotes(seen, more[..n], uuid);
      assert (seen + more)[..|seen| + n] == seen + more[..n];
    }
  }

  lemma GateMakesOneGhost(w: World, s: State, step: Step)
    requires GhostsAreGone(s) && Enabled(w, s, step) && step.event.Gate?
    ensures CountGhosts(Next(w, s, step).seen, s.queue[0].job.uuid) <= 1
  {
    var uuid, t := s.queue[0].job.uuid, Next(w, s, step);
    forall i | 0 <= i < |s.seen|
      ensures !IsGhost(s.seen[i], uuid)
    {
      assert LastOfJob(s, s.seen[i]);
    }
    NoGhosts(s.seen, uuid);
    assert t.seen[..|s.seen|] == s.seen;
  }

  lemma StepKeepsOneGhost(w: World, s: State, step: Step)
    requires GhostsAreGone(s) && OneGhostEach(s) && Enabled(w, s, step)
    ensures OneGhostEach(Next(w, s, step))
  {
    forall uuid
      ensures CountGhosts(Next(w, s, step).seen, uuid) <= 1
    {
      if step.event.Gate? && uuid == s.queue[0].job.uuid {
        GateMakesOneGhost(w, s, step);
      } else {
        NoGhostInNotes(s.seen, Shown(s, step), uuid);
      }
    }
  }

  // ---------------------------------------------------------------------------
  // Reports
  // ---------------------------------------------------------------------------

  /** Reports are decided in the order of the clock, and one that is not on its own job's row is its job's last. */
  ghost predicate ReportsOk(s: State) {
    && (forall i | 0 <= i < |s.seen| && s.seen[i].Reported? ::
          s.seen[i].at <= s.clock && (s.current.Decided? ==> s.seen[i].at <= s.current.now))
    && (forall i, j | 0 <= i < j < |s.seen| && s.seen[i].Reported? && s.seen[j].Reported? :: IsEarlier(s.seen[i], s.seen[j]))
  }

  predicate IsEarlier(o: Observation, p: Observation)
    requires o.Reported? && p.Reported?
  {
    o.at <= p.at && (o.uuid == p.uuid ==> o.own)
  }

  lemma CommitKeepsReports(w: World, s: State, step: Step)
    requires DecisionOk(w, s) && GhostsAreGone(s) && ReportsOk(s) && Enabled(w, s, step) && step.event.Commit?
    ensures ReportsOk(Next(w, s, step))
  {
    var c, t, n := s.current, Next(w, s, step), |s.seen|;
    forall i, j | 0 <= i < j < |t.seen| && t.seen[i].Reported? && t.seen[j].Reported?
      ensures IsEarlier(t.seen[i], t.seen[j])
    {
      if j >= n && i < n {
        assert LastOfJob(s, s.seen[i]);
      }
    }
  }

  lemma StepKeepsReports(w: World, s: State, step: Step)
    requires DecisionOk(w, s) && GhostsAreGone(s) && ReportsOk(s) && Enabled(w, s, step)
    ensures ReportsOk(Next(w, s, step))
  {
    if step.event.Commit? {
      CommitKeepsReports(w, s, step);
    } else {
      assert forall i | 0 <= i < |Shown(s, step)| :: !Shown(s, step)[i].Reported?;
    }
  }

  lemma {:induction false} LaterSeesLess(seen: seq<Observation>, uuid: Uuid, from: Instant, later: Instant)
    requires from <= later
    ensures CountSeen(ReportLimit, seen, uuid, later) <= CountSeen(ReportLimit, seen, uuid, from)
  {
    if seen != [] {
      LaterSeesLess(seen[..|seen| - 1], uuid, from, later);
    }
  }

  /** Before any report, own or not, its job had at most the cap of reports in the hour before. */
  lemma {:induction false} ReportsBefore(w: World, seen: seq<Observation>, n: nat, uuid: Uuid, from: Instant)
    requires AllWithinCap(w, seen) && n <= |seen|
    requires forall i | 0 <= i < n && seen[i].Reported? && seen[i].uuid == uuid :: seen[i].own && seen[i].at - HOUR <= from
    ensures CountSeen(ReportLimit, seen[..n], uuid, from) <= w.cfg.maxReports
    decreases n
  {
    if n > 0 {
      var o := seen[n - 1];
      ReportsBefore(w, seen, n - 1, uuid, from);
      assert seen[..n] == seen[..n - 1] + [o];
      CountSeenSnoc(ReportLimit, seen[..n - 1], o, uuid, from);
      if Hits(ReportLimit, o, uuid, from) {
        assert WithinCap(w, seen, n - 1);
        LaterSeesLess(seen[..n - 1], uuid, o.at - HOUR, from);
      }
    }
  }

  lemma {:induction false} WindowIsBounded(seen: seq<Observation>, uuid: Uuid, lo: Instant, hi: Instant)
    ensures CountBetween(ReportLimit, seen, uuid, lo, hi) <= CountSeen(ReportLimit, seen, uuid, lo)
  {
    if seen != [] {
      WindowIsBounded(seen[..|seen| - 1], uuid, lo, hi);
    }
  }

  // ---------------------------------------------------------------------------
  // Runs
  // ---------------------------------------------------------------------------

  ghost predicate AllHolds(w: World, s: State) {
    LimitsHold(w, s) && GhostsAreGone(s) && OneGhostEach(s) && ReportsOk(s)
  }

  lemma {:induction false} RunKeepsAll(w: World, s: State, steps: seq<Step>)
    requires AllHolds(w, s) && IsRun(w, s, steps)
    ensures AllHolds(w, Final(w, s, steps))
    decreases |steps|
  {
    if steps != [] {
      StepKeepsLimits(w, s, steps[0]);
      StepKeepsGhostsGone(w, s, steps[0]);
      StepKeepsOneGhost(w, s, steps[0]);
      StepKeepsReports(w, s, steps[0]);
      RunKeepsAll(w, Next(w, s, steps[0]), steps[1..]);
    }
  }

  lemma RunFromInit(w: World, s: State, steps: seq<Step>)
    requires Init(s) && IsRun(w, s, steps)
    ensures AllHolds(w, Final(w, s, steps)) && InClockOrder(Final(w, s, steps).seen)
  {
    InitHasLimits(w, s);
    RunKeepsAll(w, s, steps);
  }

  /**
   Fire cap. On every run, in every closed window of an hour, a job has at most as many fires past the gate as
   the cap allows, plus one for each lost to a crash in that window, plus one if a fire passed after the job had been
   deleted; there is at most one of those.
   */
  lemma FireCapHolds(w: World, s: State, steps: seq<Step>, uuid: Uuid, lo: Instant)
    requires Init(s) && IsRun(w, s, steps)
    ensures var seen := Final(w, s, steps).seen;
            && CountBetween(FireLimit, seen, uuid, lo, lo + HOUR) <=
               w.cfg.maxFires + CountGhosts(seen, uuid) + CountLost(seen, uuid, lo, lo + HOUR)
            && CountGhosts(seen, uuid) <= 1
  {
    RunFromInit(w, s, steps);
    EveryWindowIsBounded(w, Final(w, s, steps).seen, uuid, lo);
  }

  /** On every run, some window of an hour exceeds the cap if and only if some fire was let through blindly. */
  lemma CapIsExceededExactly(w: World, s: State, steps: seq<Step>, uuid: Uuid)
    requires Init(s) && IsRun(w, s, steps)
    ensures var seen := Final(w, s, steps).seen;
            Exceeds(seen, uuid, w.cfg.maxFires) <==> HasBlindFire(seen, uuid, w.cfg.maxFires)
  {
    RunFromInit(w, s, steps);
    ExceedsExactly(w, Final(w, s, steps).seen, uuid);
  }

  /**
   At most as many fires as the cap allows, this one included, have been reported within the hour before the decision; one
   more if the report was booked on a row that another job had taken over, and then it is the last report of its job.
   */
  ghost predicate IsBoundedReport(w: World, seen: seq<Observation>, i: nat)
    requires i < |seen| && seen[i].Reported?
  {
    var o := seen[i];
    && CountBetween(ReportLimit, seen[..i + 1], o.uuid, o.at - HOUR, o.at) <= w.cfg.maxReports + (if o.own then 0 else 1)
    && (!o.own ==> forall j | i < j < |seen| && seen[j].Reported? :: seen[j].uuid != o.uuid)
  }

  /** Report cap: it holds so of every ordinary error report of every run. */
  lemma ReportCapHolds(w: World, s: State, steps: seq<Step>, i: nat)
    requires Init(s) && IsRun(w, s, steps)
    requires i < |Final(w, s, steps).seen| && Final(w, s, steps).seen[i].Reported?
    ensures IsBoundedReport(w, Final(w, s, steps).seen, i)
  {
    RunFromInit(w, s, steps);
    ReportIsBounded(w, Final(w, s, steps), i);
  }

  lemma ReportIsBounded(w: World, t: State, i: nat)
    requires AllHolds(w, t) && i < |t.seen| && t.seen[i].Reported?
    ensures IsBoundedReport(w, t.seen, i)
  {
    var seen, o := t.seen, t.seen[i];
    assert seen[..i + 1] == seen[..i] + [o];
    CountSeenSnoc(ReportLimit, seen[..i], o, o.uuid, o.at - HOUR);
    WindowIsBounded(seen[..i + 1], o.uuid, o.at - HOUR, o.at);
    if o.own {
      assert WithinCap(w, seen, i);
    } else {
      assert forall j | 0 <= j < i && seen[j].Reported? :: IsEarlier(seen[j], o);
      assert forall j | i < j < |seen| && seen[j].Reported? :: IsEarlier(o, seen[j]);
      ReportsBefore(w, seen, i, o.uuid, o.at - HOUR);
    }
  }

  /** The report is one more than the cap allows in the hour before its decision. */
  predicate ReportExceeds(w: World, seen: seq<Observation>, i: nat)
    requires i < |seen| && seen[i].Reported?
  {
    CountBetween(ReportLimit, seen[..i + 1], seen[i].uuid, seen[i].at - HOUR, seen[i].at) > w.cfg.maxReports
  }

  /**
   The report is booked on another job's row, is about a fire of the hour before its decision, and finds the cap of that
   hour already used up.
   */
  predicate IsStrayExcess(w: World, seen: seq<Observation>, i: nat)
    requires i < |seen| && seen[i].Reported?
  {
    var o := seen[i];
    && !o.own && o.at - HOUR <= o.fireTs <= o.at
    && CountBetween(ReportLimit, seen[..i], o.uuid, o.at - HOUR, o.at) >= w.cfg.maxReports
  }

  /** Exactly those reports exceed the cap. */
  lemma ReportCapIsExceededExactly(w: World, s: State, steps: seq<Step>, i: nat)
    requires Init(s) && IsRun(w, s, steps)
    requires i < |Final(w, s, steps).seen| && Final(w, s, steps).seen[i].Reported?
    ensures ReportExceeds(w, Final(w, s, steps).seen, i) <==> IsStrayExcess(w, Final(w, s, steps).seen, i)
  {
    RunFromInit(w, s, steps);
    StrayReportExceeds(w, Final(w, s, steps), i);
  }

  lemma StrayReportExceeds(w: World, t: State, i: nat)
    requires AllHolds(w, t) && i < |t.seen| && t.seen[i].Reported?
    ensures ReportExceeds(w, t.seen, i) <==> IsStrayExcess(w, t.seen, i)
  {
    var seen, o := t.seen, t.seen[i];
    assert seen[..i + 1] == seen[..i] + [o];
    BetweenSnoc(ReportLimit, seen[..i], o, o.uuid, o.at - HOUR, o.at);
    ReportIsBounded(w, t, i);
    if !o.own {
      assert forall j | 0 <= j < i && seen[j].Reported? :: IsEarlier(seen[j], o);
      ReportsBefore(w, seen, i, o.uuid, o.at - HOUR);
      WindowIsBounded(seen[..i], o.uuid, o.at - HOUR, o.at);
    }
  }
}
