/** Without edits, a job fires at most once per slot, however many slots were missed, but for slots lost to a crash. */
module OneFirePerSlot {
  import opened Options
  import opened CronSchedule
  import opened JobTables
  import opened CatchUp
  import opened Scheduler
  import opened Identities

  predicate EditFree(w: World, s: State, step: Step) {
    !step.event.EditWrite?
  }

  // ---------------------------------------------------------------------------
  // What has been fired
  // ---------------------------------------------------------------------------

  /** A fire of the job. */
  predicate IsFireOf(o: Observation, uuid: Uuid) {
    o.Fired? && o.uuid == uuid
  }

  predicate IsLostOf(o: Observation, uuid: Uuid) {
    o.Lost? && o.uuid == uuid
  }

  /** Between these two moments, a fire of the job was lost to a crash. */
  ghost predicate LostBetween(seen: seq<Observation>, uuid: Uuid, i: nat, j: nat) {
    exists k :: i < k < j && k < |seen| && IsLostOf(seen[k], uuid)
  }

  ghost predicate LostSince(seen: seq<Observation>, uuid: Uuid, i: nat) {
    LostBetween(seen, uuid, i, |seen|)
  }

  /** Fire `i` is the last of the job. */
  ghost predicate IsLast(seen: seq<Observation>, uuid: Uuid, i: nat) {
    i < |seen| && IsFireOf(seen[i], uuid) && forall k | i < k < |seen| :: !IsFireOf(seen[k], uuid)
  }

  ghost predicate NeverFired(seen: seq<Observation>, uuid: Uuid) {
    forall i | 0 <= i < |seen| :: !IsFireOf(seen[i], uuid)
  }

  /** Every fire seen of the job was for this trigger, and not after `limit`. */
  ghost predicate FiredBy(seen: seq<Observation>, uuid: Uuid, trigger: Trigger, limit: Instant) {
    forall i | 0 <= i < |seen| && IsFireOf(seen[i], uuid) :: seen[i].trigger == trigger && seen[i].at <= limit
  }

  /** The slot is genuine and later than the fire. */
  predicate IsAfter(w: World, o: Observation, trigger: Trigger, slot: Stamp)
    requires o.Fired?
  {
    IsOccurrence(w.lib, trigger, slot) && o.at < FromDb(slot)
  }

  /** For every fire of the job, the slot is later, or it is the fire's own. */
  ghost predicate AfterOrSame(w: World, seen: seq<Observation>, uuid: Uuid, trigger: Trigger, slot: Stamp) {
    forall i | 0 <= i < |seen| && IsFireOf(seen[i], uuid) :: IsAfter(w, seen[i], trigger, slot) || seen[i].slot == slot
  }

  /**
   The slot may be fired: it is later than every fire of the job, but for fires of this very slot that were lost; and
   those only if the job is persistent, or has not been caught up since.
   */
  ghost predicate IsOpen(w: World, seen: seq<Observation>, booted: bool, uuid: Uuid, trigger: Trigger, slot: Stamp) {
    forall i | 0 <= i < |seen| && IsFireOf(seen[i], uuid) ::
      || IsAfter(w, seen[i], trigger, slot)
      || (seen[i].slot == slot && LostSince(seen, uuid, i) && (trigger.persistent || !booted))
  }

  /** If the last fire of a persistent job was lost, this is its slot. */
  ghost predicate RepeatsLost(seen: seq<Observation>, uuid: Uuid, trigger: Trigger, slot: Stamp) {
    forall i | 0 <= i < |seen| && IsLast(seen, uuid, i) && LostSince(seen, uuid, i) && trigger.persistent :: seen[i].slot == slot
  }

  // ---------------------------------------------------------------------------
  // Notes that show no fire of the job
  // ---------------------------------------------------------------------------

  lemma LostStays(seen: seq<Observation>, more: seq<Observation>, uuid: Uuid, i: nat, j: nat)
    requires j <= |seen|
    ensures LostBetween(seen, uuid, i, j) <==> LostBetween(seen + more, uuid, i, j)
  {
    if LostBetween(seen, uuid, i, j) {
      var k :| i < k < j && IsLostOf(seen[k], uuid);
      assert (seen + more)[k] == seen[k];
    }
    if LostBetween(seen + more, uuid, i, j) {
      var k :| i < k < j && IsLostOf((seen + more)[k], uuid);
      assert (seen + more)[k] == seen[k];
    }
  }

  /** Notes without a loss of the job do not change whether one came since. */
  lemma LostSinceStays(seen: seq<Observation>, more: seq<Observation>, uuid: Uuid, i: nat)
    requires i < |seen| && forall k | 0 <= k < |more| :: !IsLostOf(more[k], uuid)
    ensures LostSince(seen + more, uuid, i) <==> LostSince(seen, uuid, i)
  {
    LostStays(seen, more, uuid, i, |seen|);
    var all := seen + more;
    assert forall k | |seen| <= k < |all| :: all[k] == more[k - |seen|];
  }

  predicate IsSilent(more: seq<Observation>, uuid: Uuid) {
    forall i | 0 <= i < |more| :: !IsFireOf(more[i], uuid) && !IsLostOf(more[i], uuid)
  }

  lemma NotesKeepFires(w: World, seen: seq<Observation>, more: seq<Observation>, uuid: Uuid, trigger: Trigger)
    requires forall i | 0 <= i < |more| :: !IsFireOf(more[i], uuid)
    ensures NeverFired(seen, uuid) ==> NeverFired(seen + more, uuid)
    ensures forall limit, later | limit <= later :: FiredBy(seen, uuid, trigger, limit) ==> FiredBy(seen + more, uuid, trigger, later)
    ensures forall slot :: AfterOrSame(w, seen, uuid, trigger, slot) ==> AfterOrSame(w, seen + more, uuid, trigger, slot)
  {
  }

  lemma NotesKeepSlot(w: World, seen: seq<Observation>, more: seq<Observation>, booted: bool, uuid: Uuid, trigger: Trigger, slot: Stamp)
    requires IsSilent(more, uuid)
    ensures IsOpen(w, seen, booted, uuid, trigger, slot) ==> IsOpen(w, seen + more, booted, uuid, trigger, slot)
    ensures RepeatsLost(seen, uuid, trigger, slot) ==> RepeatsLost(seen + more, uuid, trigger, slot)
  {
    var all := seen + more;
    forall i | 0 <= i < |all| && IsFireOf(all[i], uuid)
      ensures i < |seen| && (LostSince(all, uuid, i) <==> LostSince(seen, uuid, i))
      ensures IsLast(all, uuid, i) ==> IsLast(seen, uuid, i)
    {
      LostSinceStays(seen, more, uuid, i);
      assert forall k | 0 <= k < |seen| :: all[k] == seen[k];
    }
  }

  // ---------------------------------------------------------------------------
  // The invariant
  // ---------------------------------------------------------------------------

  predicate IsFiringJob(s: State, uuid: Uuid) {
    IsFiring(s.current) && s.current.snap.job.uuid == uuid
  }

  /** A job that waits, waits for an open slot. */
  ghost predicate RowWaits(w: World, s: State, row: Job) {
    && FiredBy(s.seen, row.uuid, row.trigger, s.clock)
    && (row.enabled && !IsFiringJob(s, row.uuid) ==>
          && IsOpen(w, s.seen, s.booted, row.uuid, row.trigger, row.nextFire)
          && RepeatsLost(s.seen, row.uuid, row.trigger, row.nextFire))
  }

  /**
   Under the snapshot's row id there is its own job, with the trigger and the slot it was scanned with, or a job that has
   never fired, or none.
   */
  ghost predicate IdIsSafe(s: State, snap: Snapshot) {
    snap.id in s.tb.jobs ==>
      var row := s.tb.jobs[snap.id];
      if row.uuid == snap.job.uuid then row.trigger == snap.job.trigger && row.nextFire == snap.job.nextFire
      else NeverFired(s.seen, row.uuid)
  }

  /** A snapshot waits for an open slot that has come. */
  ghost predicate SnapWaits(w: World, s: State, snap: Snapshot) {
    && FromDb(snap.job.nextFire) <= s.clock
    && FiredBy(s.seen, snap.job.uuid, snap.job.trigger, s.clock)
    && IsOpen(w, s.seen, true, snap.job.uuid, snap.job.trigger, snap.job.nextFire)
    && RepeatsLost(s.seen, snap.job.uuid, snap.job.trigger, snap.job.nextFire)
    && IdIsSafe(s, snap)
  }

  /** The fire in progress is the last of its job, and is not lost yet. */
  ghost predicate IsCurrentFire(seen: seq<Observation>, uuid: Uuid, slot: Stamp) {
    forall i | 0 <= i < |seen| && IsLast(seen, uuid, i) :: seen[i].slot == slot && !LostSince(seen, uuid, i)
  }

  ghost predicate CurrentWaits(w: World, s: State) {
    IsFiring(s.current) ==>
      var job := s.current.snap.job;
      && IdIsSafe(s, s.current.snap)
      && FiredBy(s.seen, job.uuid, job.trigger, s.current.fireTs)
      && AfterOrSame(w, s.seen, job.uuid, job.trigger, job.nextFire)
      && IsCurrentFire(s.seen, job.uuid, job.nextFire)
      && (s.current.Decided? ==> ComputeNext(w.lib, job.trigger, s.current.fireTs) == Some(s.current.next))
  }

  /** The two fires have a slot of their trigger between them: after the first, not after the second. */
  ghost predicate SlotBetween(w: World, first: Observation, second: Observation)
    requires first.Fired? && second.Fired?
  {
    && first.trigger == second.trigger
    && IsOccurrence(w.lib, second.trigger, second.slot)
    && first.at < FromDb(second.slot) <= second.at
  }

  /** Two fires of one job. */
  ghost predicate IsPair(seen: seq<Observation>, i: nat, j: nat) {
    i < j < |seen| && seen[i].Fired? && seen[j].Fired? && seen[i].uuid == seen[j].uuid
  }

  /** Two fires of one job with none between them. */
  ghost predicate IsConsecutive(seen: seq<Observation>, i: nat, j: nat) {
    IsPair(seen, i, j) && forall k | i < k < j :: !IsFireOf(seen[k], seen[i].uuid)
  }

  /** A fire came when its slot had come. */
  predicate IsDueFire(o: Observation) {
    o.Fired? ==> FromDb(o.slot) <= o.at
  }

  /** Two fires of a job have a slot between them, or are of one slot of a persistent job that was lost in between. */
  ghost predicate Separate(w: World, seen: seq<Observation>, i: nat, j: nat) {
    IsPair(seen, i, j) ==>
      && seen[i].trigger == seen[j].trigger
      && (SlotBetween(w, seen[i], seen[j]) ||
          (seen[i].slot == seen[j].slot && LostBetween(seen, seen[i].uuid, i, j) && seen[j].trigger.persistent))
      && (IsConsecutive(seen, i, j) && LostBetween(seen, seen[i].uuid, i, j) && seen[j].trigger.persistent ==>
            seen[i].slot == seen[j].slot)
  }

  ghost predicate AllSeparate(w: World, seen: seq<Observation>) {
    && (forall i | 0 <= i < |seen| :: IsDueFire(seen[i]))
    && (forall i, j | 0 <= i < j < |seen| :: Separate(w, seen, i, j))
  }

  /** Two jobs about to be fired have different row ids; there are some only in a process that has caught up. */
  ghost predicate IdsDiffer(s: State) {
    && (forall i, j | 0 <= i < j < |s.queue| :: s.queue[i].id != s.queue[j].id)
    && (IsFiring(s.current) ==> forall i | 0 <= i < |s.queue| :: s.queue[i].id != s.current.snap.id)
    && (s.queue != [] || IsFiring(s.current) ==> s.booted)
  }

  ghost predicate SlotsOk(w: World, s: State) {
    && WellFormed(s) && IdsDiffer(s)
    && (forall id | id in s.tb.jobs :: RowWaits(w, s, s.tb.jobs[id]))
    && (forall i | 0 <= i < |s.queue| :: SnapWaits(w, s, s.queue[i]))
    && CurrentWaits(w, s)
    && AllSeparate(w, s.seen)
  }

  // ---------------------------------------------------------------------------
  // Steps that show no fire
  // ---------------------------------------------------------------------------

  lemma NoNewFires(s: State, step: Step)
    requires !step.event.Gate?
    ensures forall i | 0 <= i < |Shown(s, step)| :: !Shown(s, step)[i].Fired?
    ensures !step.event.Restart? ==> forall i | 0 <= i < |Shown(s, step)| :: !Shown(s, step)[i].Lost?
  {
  }

  lemma SeparateStays(w: World, seen: seq<Observation>, more: seq<Observation>, i: nat, j: nat)
    requires i < j < |seen| && Separate(w, seen, i, j)
    ensures Separate(w, seen + more, i, j)
  {
    var all := seen + more;
    assert forall k | 0 <= k < |seen| :: all[k] == seen[k];
    if IsPair(all, i, j) {
      LostStays(seen, more, seen[i].uuid, i, j);
    }
  }

  lemma SeparateGrows(w: World, seen: seq<Observation>, more: seq<Observation>)
    requires AllSeparate(w, seen) && forall i | 0 <= i < |more| :: !more[i].Fired?
    ensures AllSeparate(w, seen + more)
  {
    var all := seen + more;
    forall i, j | 0 <= i < j < |all|
      ensures Separate(w, all, i, j)
    {
      if j < |seen| {
        SeparateStays(w, seen, more, i, j);
      }
    }
  }

  /** A new job has never fired. */
  lemma NewRowWaits(w: World, s: State, step: Step, id: RowId)
    requires WellFormed(s) && Enabled(w, s, step) && !step.event.Gate?
    requires id in Next(w, s, step).tb.jobs && IsNew(s, Next(w, s, step), id)
    ensures RowWaits(w, Next(w, s, step), Next(w, s, step).tb.jobs[id])
    ensures NeverFired(Next(w, s, step).seen, Next(w, s, step).tb.jobs[id].uuid)
  {
    NoNewFires(s, step);
  }

  /** What a step does to a kept row: nothing that matters here, or it disables it, books a fire on it or catches it up. */
  lemma KeptRow(w: World, s: State, step: Step, id: RowId)
    requires WellFormed(s) && Enabled(w, s, step) && EditFree(w, s, step) && id in s.tb.jobs
    requires id in Next(w, s, step).tb.jobs && Kept(s, Next(w, s, step), id)
    ensures var row, after := s.tb.jobs[id], Next(w, s, step).tb.jobs[id];
            && after.trigger == row.trigger
            && (after.enabled ==> row.enabled)
            && (!step.event.Catchup? && !(step.event.Commit? && s.current.snap.id == id) ==> after.nextFire == row.nextFire)
  {
    if step.event.Catchup? {
      CatchUpRows(w.lib, s.tb, step.event.due, step.event.start, id);
    }
  }

  lemma RowsWait(w: World, s: State, step: Step, id: RowId)
    requires SlotsOk(w, s) && Enabled(w, s, step) && EditFree(w, s, step) && !step.event.Gate?
    requires id in Next(w, s, step).tb.jobs
    ensures RowWaits(w, Next(w, s, step), Next(w, s, step).tb.jobs[id])
  {
    var t := Next(w, s, step);
    StepKeepsWellFormed(w, s, step);
    if IsNew(s, t, id) {
      NewRowWaits(w, s, step, id);
    } else if step.event.Commit? && s.current.snap.id == id {
      CommitWaits(w, s, step);
    } else if step.event.Catchup? {
      CatchupWaits(w, s, step, id);
    } else if step.event.Restart? {
      RestartWaits(w, s, step, id);
    } else {
      QuietWaits(w, s, step, id);
    }
  }

  lemma QuietWaits(w: World, s: State, step: Step, id: RowId)
    requires SlotsOk(w, s) && Enabled(w, s, step) && EditFree(w, s, step)
    requires !step.event.Gate? && !step.event.Catchup? && !step.event.Restart? && !(step.event.Commit? && s.current.snap.id == id)
    requires id in Next(w, s, step).tb.jobs && Kept(s, Next(w, s, step), id)
    ensures RowWaits(w, Next(w, s, step), Next(w, s, step).tb.jobs[id])
  {
    var row, t := s.tb.jobs[id], Next(w, s, step);
    assert RowWaits(w, s, row);
    NoNewFires(s, step);
    NotesKeepFires(w, s.seen, Shown(s, step), row.uuid, row.trigger);
    NotesKeepSlot(w, s.seen, Shown(s, step), s.booted, row.uuid, row.trigger, row.nextFire);
    KeptRow(w, s, step, id);
    if IsFiringJob(s, row.uuid) && !IsFiringJob(t, row.uuid) {
      FiringJobStops(w, s, step, id);
    }
  }

  /** When a fire ends without being booked on its own row, that row is disabled. */
  lemma FiringJobStops(w: World, s: State, step: Step, id: RowId)
    requires WellFormed(s) && Enabled(w, s, step) && id in s.tb.jobs && IsFiringJob(s, s.tb.jobs[id].uuid)
    requires !IsFiringJob(Next(w, s, step), s.tb.jobs[id].uuid)
    requires !step.event.Restart? && !(step.event.Commit? && s.current.snap.id == id)
    requires id in Next(w, s, step).tb.jobs
    ensures !Next(w, s, step).tb.jobs[id].enabled
  {
    assert HasRow(s.tb, id, s.current.snap.job.uuid);
  }

  /** A crash: the job that was firing still has the slot of its lost fire; every other job is as it was. */
  lemma RestartWaits(w: World, s: State, step: Step, id: RowId)
    requires SlotsOk(w, s) && Enabled(w, s, step) && step.event.Restart? && id in s.tb.jobs
    ensures RowWaits(w, Next(w, s, step), s.tb.jobs[id])
  {
    var row := s.tb.jobs[id];
    assert RowWaits(w, s, row);
    NotesKeepFires(w, s.seen, Shown(s, step), row.uuid, row.trigger);
    if IsFiringJob(s, row.uuid) {
      assert HasRow(s.tb, id, s.current.snap.job.uuid);
      LossIsRepeated(w, s.seen, Shown(s, step)[0], row.trigger, row.nextFire);
    } else {
      NotesKeepSlot(w, s.seen, Shown(s, step), s.booted, row.uuid, row.trigger, row.nextFire);
    }
  }

  lemma LossIsRepeated(w: World, seen: seq<Observation>, lost: Observation, trigger: Trigger, slot: Stamp)
    requires lost.Lost? && AfterOrSame(w, seen, lost.uuid, trigger, slot) && IsCurrentFire(seen, lost.uuid, slot)
    ensures IsOpen(w, seen + [lost], false, lost.uuid, trigger, slot)
    ensures RepeatsLost(seen + [lost], lost.uuid, trigger, slot)
  {
    var all := seen + [lost];
    assert forall k | 0 <= k < |seen| :: all[k] == seen[k];
    forall i | 0 <= i < |all| && IsFireOf(all[i], lost.uuid)
      ensures LostSince(all, lost.uuid, i)
      ensures IsLast(all, lost.uuid, i) ==> IsLast(seen, lost.uuid, i)
    {
      assert IsLostOf(all[|seen|], lost.uuid);
    }
  }

  /** The startup pass: a job that is not persistent and whose slot had come is moved past all its fires. */
  lemma CatchupWaits(w: World, s: State, step: Step, id: RowId)
    requires SlotsOk(w, s) && Enabled(w, s, step) && step.event.Catchup? && id in s.tb.jobs
    requires id in Next(w, s, step).tb.jobs
    ensures RowWaits(w, Next(w, s, step), Next(w, s, step).tb.jobs[id])
  {
    var start, row := step.event.start, s.tb.jobs[id];
    assert RowWaits(w, s, row);
    assert Next(w, s, step).seen == s.seen;
    CatchUpRows(w.lib, s.tb, step.event.due, start, id);
    ComputeNextIsLeast(w.lib, row.trigger, start);
    if row.enabled && !row.trigger.persistent && !IsDue(row, step.now) {
      NotDueIsLater(w, s, row, step.now);
    }
  }

  lemma NotDueIsLater(w: World, s: State, row: Job, now: Instant)
    requires AllSeparate(w, s.seen) && FiredBy(s.seen, row.uuid, row.trigger, s.clock) && s.clock <= now
    requires IsOpen(w, s.seen, s.booted, row.uuid, row.trigger, row.nextFire) && row.enabled && !IsDue(row, now)
    ensures IsOpen(w, s.seen, true, row.uuid, row.trigger, row.nextFire)
  {
    forall i | 0 <= i < |s.seen| && IsFireOf(s.seen[i], row.uuid)
      ensures s.seen[i].slot != row.nextFire
    {
      assert IsDueFire(s.seen[i]);
    }
  }

  /** A booked fire moves its own job to a later slot; another job that has taken its row id has never fired. */
  lemma CommitWaits(w: World, s: State, step: Step)
    requires SlotsOk(w, s) && Enabled(w, s, step) && step.event.Commit? && s.current.snap.id in s.tb.jobs
    requires s.current.snap.id in Next(w, s, step).tb.jobs
    ensures RowWaits(w, Next(w, s, step), Next(w, s, step).tb.jobs[s.current.snap.id])
  {
    var c := s.current;
    var row := s.tb.jobs[c.snap.id];
    assert RowWaits(w, s, row);
    ComputeNextIsLeast(w.lib, c.snap.job.trigger, c.fireTs);
    assert IsOpen(w, s.seen, s.booted, row.uuid, row.trigger, c.next);
    assert RepeatsLost(s.seen, row.uuid, row.trigger, c.next);
    NoNewFires(s, step);
    NotesKeepFires(w, s.seen, Shown(s, step), row.uuid, row.trigger);
    NotesKeepSlot(w, s.seen, Shown(s, step), s.booted, row.uuid, row.trigger, c.next);
  }

  /** A row id stays safe: its row keeps its trigger and slot, or goes, or comes new. */
  lemma IdStaysSafe(w: World, s: State, step: Step, snap: Snapshot)
    requires SlotsOk(w, s) && Enabled(w, s, step) && EditFree(w, s, step) && !step.event.Gate? && !step.event.Catchup?
    requires SnapOk(s, snap) && IdIsSafe(s, snap) && !(step.event.Commit? && s.current.snap.id == snap.id)
    ensures IdIsSafe(Next(w, s, step), snap)
  {
    var t := Next(w, s, step);
    StepEvolves(w, s, step);
    if snap.id in t.tb.jobs {
      var uuid := t.tb.jobs[snap.id].uuid;
      NoNewFires(s, step);
      NotesKeepFires(w, s.seen, Shown(s, step), uuid, snap.job.trigger);
      if IsNew(s, t, snap.id) {
        NewRowWaits(w, s, step, snap.id);
      } else {
        KeptRow(w, s, step, snap.id);
      }
    }
  }

  lemma QueueWaits(w: World, s: State, step: Step)
    requires SlotsOk(w, s) && Enabled(w, s, step) && EditFree(w, s, step) && !step.event.Gate?
    ensures forall i | 0 <= i < |Next(w, s, step).queue| :: SnapWaits(w, Next(w, s, step), Next(w, s, step).queue[i])
  {
    var t := Next(w, s, step);
    forall i | 0 <= i < |t.queue|
      ensures SnapWaits(w, t, t.queue[i])
    {
      if step.event.Scan? {
        assert RowWaits(w, s, s.tb.jobs[t.queue[i].id]);
        assert t.seen == s.seen;
      } else {
        assert t.queue[i] == s.queue[i];
        SnapStillWaits(w, s, step, i);
      }
    }
  }

  lemma SnapStillWaits(w: World, s: State, step: Step, i: nat)
    requires SlotsOk(w, s) && Enabled(w, s, step) && EditFree(w, s, step) && i < |s.queue|
    requires !step.event.Gate? && !step.event.Catchup? && !step.event.Restart?
    ensures SnapWaits(w, Next(w, s, step), s.queue[i])
  {
    var snap := s.queue[i];
    assert SnapWaits(w, s, snap) && SnapOk(s, snap);
    NoNewFires(s, step);
    NotesKeepFires(w, s.seen, Shown(s, step), snap.job.uuid, snap.job.trigger);
    NotesKeepSlot(w, s.seen, Shown(s, step), true, snap.job.uuid, snap.job.trigger, snap.job.nextFire);
    IdStaysSafe(w, s, step, snap);
  }

  lemma CurrentStillWaits(w: World, s: State, step: Step)
    requires SlotsOk(w, s) && Enabled(w, s, step) && EditFree(w, s, step) && !step.event.Gate?
    ensures CurrentWaits(w, Next(w, s, step))
  {
    if IsFiring(Next(w, s, step).current) {
      var job := s.current.snap.job;
      NoNewFires(s, step);
      NotesKeepFires(w, s.seen, Shown(s, step), job.uuid, job.trigger);
      CurrentFireStays(s.seen, Shown(s, step), job.uuid, job.nextFire);
      IdStaysSafe(w, s, step, s.current.snap);
    }
  }

  lemma CurrentFireStays(seen: seq<Observation>, more: seq<Observation>, uuid: Uuid, slot: Stamp)
    requires IsCurrentFire(seen, uuid, slot) && IsSilent(more, uuid)
    ensures IsCurrentFire(seen + more, uuid, slot)
  {
    var all := seen + more;
    assert forall k | 0 <= k < |seen| :: all[k] == seen[k];
    forall i | 0 <= i < |all| && IsLast(all, uuid, i)
      ensures all[i].slot == slot && !LostSince(all, uuid, i)
    {
      assert IsLast(seen, uuid, i);
      LostSinceStays(seen, more, uuid, i);
    }
  }

  // ---------------------------------------------------------------------------
  // The gate
  // ---------------------------------------------------------------------------

  /** The fire the gate shows is separated from all earlier ones by the slot it fires for. */
  lemma GateSeparates(w: World, s: State, step: Step)
    requires SlotsOk(w, s) && Enabled(w, s, step) && step.event.Gate?
    ensures AllSeparate(w, Next(w, s, step).seen)
  {
    var o := Shown(s, step)[0];
    var all := s.seen + [o];
    assert SnapWaits(w, s, s.queue[0]);
    forall i, j | 0 <= i < j < |all|
      ensures Separate(w, all, i, j)
    {
      if j < |s.seen| {
        SeparateStays(w, s.seen, [o], i, j);
      } else {
        NewFireIsSeparate(w, s, o, i);
      }
    }
  }

  lemma NewFireIsSeparate(w: World, s: State, o: Observation, i: nat)
    requires s.queue != [] && SnapWaits(w, s, s.queue[0]) && i < |s.seen|
    requires var snap := s.queue[0].job;
             o.Fired? && o.uuid == snap.uuid && o.slot == snap.nextFire && o.trigger == snap.trigger && s.clock <= o.at
    ensures Separate(w, s.seen + [o], i, |s.seen|)
  {
    var seen, all := s.seen, s.seen + [o];
    assert forall k | 0 <= k < |seen| :: all[k] == seen[k];
    if IsFireOf(seen[i], o.uuid) {
      LostStays(seen, [o], o.uuid, i, |seen|);
      if IsConsecutive(all, i, |seen|) {
        assert IsLast(seen, o.uuid, i);
      }
    }
  }

  lemma GateRowWaits(w: World, s: State, step: Step, id: RowId)
    requires SlotsOk(w, s) && Enabled(w, s, step) && step.event.Gate? && id in s.tb.jobs
    ensures RowWaits(w, Next(w, s, step), s.tb.jobs[id])
  {
    var row, snap := s.tb.jobs[id], s.queue[0];
    assert RowWaits(w, s, row) && SnapWaits(w, s, snap);
    if row.uuid == snap.job.uuid {
      assert HasRow(s.tb, id, snap.job.uuid);
    } else {
      NotesKeepFires(w, s.seen, Shown(s, step), row.uuid, row.trigger);
      NotesKeepSlot(w, s.seen, Shown(s, step), s.booted, row.uuid, row.trigger, row.nextFire);
    }
  }

  /** The fire is not of a job that has taken over another row id. */
  lemma GateKeepsIdsSafe(w: World, s: State, step: Step, i: nat)
    requires SlotsOk(w, s) && Enabled(w, s, step) && step.event.Gate? && i < |s.queue|
    ensures IdIsSafe(Next(w, s, step), s.queue[i])
  {
    var snap, first := s.queue[i], s.queue[0];
    assert SnapWaits(w, s, snap) && SnapOk(s, first);
    if snap.id in s.tb.jobs && s.tb.jobs[snap.id].uuid != snap.job.uuid {
      var uuid := s.tb.jobs[snap.id].uuid;
      assert uuid == first.job.uuid ==> HasRow(s.tb, snap.id, first.job.uuid);
      NotesKeepFires(w, s.seen, Shown(s, step), uuid, snap.job.trigger);
    }
  }

  lemma GateSnapWaits(w: World, s: State, step: Step, i: nat)
    requires SlotsOk(w, s) && Enabled(w, s, step) && step.event.Gate? && 0 < i < |s.queue|
    ensures SnapWaits(w, Next(w, s, step), s.queue[i])
  {
    var snap := s.queue[i];
    assert SnapWaits(w, s, snap) && snap.job.uuid != s.queue[0].job.uuid;
    NotesKeepFires(w, s.seen, Shown(s, step), snap.job.uuid, snap.job.trigger);
    NotesKeepSlot(w, s.seen, Shown(s, step), true, snap.job.uuid, snap.job.trigger, snap.job.nextFire);
    GateKeepsIdsSafe(w, s, step, i);
  }

  lemma GateCurrentWaits(w: World, s: State, step: Step)
    requires SlotsOk(w, s) && Enabled(w, s, step) && step.event.Gate?
    ensures CurrentWaits(w, Next(w, s, step))
  {
    assert SnapWaits(w, s, s.queue[0]);
    GateKeepsIdsSafe(w, s, step, 0);
    FreshFire(s.seen, Shown(s, step)[0]);
  }

  lemma FreshFire(seen: seq<Observation>, o: Observation)
    requires o.Fired?
    ensures IsCurrentFire(seen + [o], o.uuid, o.slot)
  {
    var all := seen + [o];
    forall i | 0 <= i < |all| && IsLast(all, o.uuid, i)
      ensures i == |seen|
    {
      assert i < |seen| ==> IsFireOf(all[|seen|], o.uuid);
    }
  }

  lemma GateRowsWait(w: World, s: State, step: Step)
    requires SlotsOk(w, s) && Enabled(w, s, step) && step.event.Gate?
    ensures forall id | id in Next(w, s, step).tb.jobs :: RowWaits(w, Next(w, s, step), Next(w, s, step).tb.jobs[id])
  {
    forall id | id in s.tb.jobs
      ensures RowWaits(w, Next(w, s, step), s.tb.jobs[id])
    {
      GateRowWaits(w, s, step, id);
    }
  }

  lemma GateQueueWaits(w: World, s: State, step: Step)
    requires SlotsOk(w, s) && Enabled(w, s, step) && step.event.Gate?
    ensures forall i | 0 <= i < |Next(w, s, step).queue| :: SnapWaits(w, Next(w, s, step), Next(w, s, step).queue[i])
  {
    forall i | 0 <= i < |Next(w, s, step).queue|
      ensures SnapWaits(w, Next(w, s, step), Next(w, s, step).queue[i])
    {
      GateSnapWaits(w, s, step, i + 1);
    }
  }

  // ---------------------------------------------------------------------------
  // The theorem
  // ---------------------------------------------------------------------------

  lemma StepKeepsIds(w: World, s: State, step: Step)
    requires IdsDiffer(s) && Enabled(w, s, step)
    ensures IdsDiffer(Next(w, s, step))
  {
  }

  lemma GateKeepsSlots(w: World, s: State, step: Step)
    requires SlotsOk(w, s) && Enabled(w, s, step) && step.event.Gate?
    ensures SlotsOk(w, Next(w, s, step))
  {
    StepKeepsWellFormed(w, s, step);
    StepKeepsIds(w, s, step);
    GateSeparates(w, s, step);
    GateCurrentWaits(w, s, step);
    GateRowsWait(w, s, step);
    GateQueueWaits(w, s, step);
  }

  lemma QuietKeepsSlots(w: World, s: State, step: Step)
    requires SlotsOk(w, s) && Enabled(w, s, step) && EditFree(w, s, step) && !step.event.Gate?
    ensures SlotsOk(w, Next(w, s, step))
  {
    var t := Next(w, s, step);
    StepKeepsWellFormed(w, s, step);
    StepKeepsIds(w, s, step);
    forall id | id in t.tb.jobs
      ensures RowWaits(w, t, t.tb.jobs[id])
    {
      RowsWait(w, s, step, id);
    }
    QueueWaits(w, s, step);
    CurrentStillWaits(w, s, step);
    NoNewFires(s, step);
    SeparateGrows(w, s.seen, Shown(s, step));
  }

  lemma StepKeepsSlots(w: World, s: State, step: Step)
    requires SlotsOk(w, s) && Enabled(w, s, step) && EditFree(w, s, step)
    ensures SlotsOk(w, Next(w, s, step))
  {
    if step.event.Gate? {
      GateKeepsSlots(w, s, step);
    } else {
      QuietKeepsSlots(w, s, step);
    }
  }

  lemma {:induction false} RunKeepsSlots(w: World, s: State, steps: seq<Step>)
    requires SlotsOk(w, s) && IsRun(w, s, steps) && Along(w, s, steps, EditFree)
    ensures SlotsOk(w, Final(w, s, steps))
    decreases |steps|
  {
    if steps != [] {
      StepKeepsSlots(w, s, steps[0]);
      RunKeepsSlots(w, Next(w, s, steps[0]), steps[1..]);
    }
  }

  lemma RunSeparates(w: World, s: State, steps: seq<Step>)
    requires Init(s) && IsRun(w, s, steps) && Along(w, s, steps, EditFree)
    ensures AllSeparate(w, Final(w, s, steps).seen)
  {
    InitIsWellFormed(s);
    RunKeepsSlots(w, s, steps);
  }

  /**
   On every run without edits, two fires of a job have an occurrence of its trigger between them if and only if they are
   fires of different slots; then the later does not come before the first occurrence after the earlier. So any number
   of slots missed while the program was down collapse into one fire, and the next fire waits for the next future slot.
   Only a persistent job fires a slot twice, and only after a crash in the middle of a fire.
   */
  lemma OneFirePerSlotHolds(w: World, s: State, steps: seq<Step>, i: nat, j: nat)
    requires Init(s) && IsRun(w, s, steps) && Along(w, s, steps, EditFree) && IsPair(Final(w, s, steps).seen, i, j)
    ensures var seen := Final(w, s, steps).seen;
            var next := ComputeNext(w.lib, seen[i].trigger, seen[i].at);
            && (SlotBetween(w, seen[i], seen[j]) <==> seen[i].slot != seen[j].slot)
            && (seen[i].slot != seen[j].slot ==> next.Some? && seen[i].at < FromDb(next.value) <= seen[j].at)
            && (seen[i].slot == seen[j].slot ==> seen[j].trigger.persistent && LostBetween(seen, seen[i].uuid, i, j))
  {
    var seen := Final(w, s, steps).seen;
    RunSeparates(w, s, steps);
    assert Separate(w, seen, i, j) && IsDueFire(seen[i]);
    ComputeNextIsLeast(w.lib, seen[i].trigger, seen[i].at);
  }

  /**
   Exactly when a slot is fired again: two fires of a job with none between them are of one slot if and only if the job is
   persistent and the first was lost to a crash. For any other job, and without a crash, there is a slot between them.
   */
  lemma SlotRepeatsExactly(w: World, s: State, steps: seq<Step>, i: nat, j: nat)
    requires Init(s) && IsRun(w, s, steps) && Along(w, s, steps, EditFree) && IsConsecutive(Final(w, s, steps).seen, i, j)
    ensures var seen := Final(w, s, steps).seen;
            SlotBetween(w, seen[i], seen[j]) <==> !(seen[j].trigger.persistent && LostBetween(seen, seen[i].uuid, i, j))
  {
    var seen := Final(w, s, steps).seen;
    RunSeparates(w, s, steps);
    assert Separate(w, seen, i, j) && IsDueFire(seen[i]);
  }
}
