/** What every step of the engine keeps: identities of rows, snapshots and calls, and the order of what is seen. */
module Identities {
  import opened CronSchedule
  import opened JobTables
  import opened CatchUp
  import opened Scheduler

  /** Uuids are distinct, recorded as used, and every fire has its job. */
  ghost predicate RowsOk(s: State) {
    && HasParents(s.tb)
    && (forall id | id in s.tb.jobs :: s.tb.jobs[id].uuid in s.used)
    && (forall id, other | id in s.tb.jobs && other in s.tb.jobs && s.tb.jobs[id].uuid == s.tb.jobs[other].uuid :: id == other)
  }

  /** If the snapshot's job still has a row, it is the row the snapshot was taken from. */
  ghost predicate SnapOk(s: State, snap: Snapshot) {
    snap.job.uuid in s.used && Finds(s.tb, snap.id, snap.job.uuid)
  }

  ghost predicate QueueOk(s: State) {
    && (forall i | 0 <= i < |s.queue| :: SnapOk(s, s.queue[i]))
    && (forall i, j | 0 <= i < j < |s.queue| :: s.queue[i].job.uuid != s.queue[j].job.uuid)
  }

  ghost predicate CurrentOk(s: State) {
    IsFiring(s.current) ==>
      && SnapOk(s, s.current.snap)
      && s.current.fireTs <= s.clock
      && forall i | 0 <= i < |s.queue| :: s.queue[i].job.uuid != s.current.snap.job.uuid
  }

  /** A call under way acts on a job of its own caller, the one it read. */
  ghost predicate CallOk(s: State, c: Call) {
    && c.read.uuid in s.used && c.read.owner == c.caller
    && forall id | HasRow(s.tb, id, c.read.uuid) :: SameJob(c.read, s.tb.jobs[id])
  }

  ghost predicate CallsOk(s: State) {
    forall c | c in s.calls :: CallOk(s, s.calls[c])
  }

  predicate InTime(o: Observation, clock: Instant) {
    o.Fired? || o.Lost? ==> o.at <= clock
  }

  /** Fires are seen in the order of the clock, and after any earlier fire that was lost. */
  ghost predicate SeenOk(s: State) {
    && (forall i | 0 <= i < |s.seen| :: s.seen[i].uuid in s.used && InTime(s.seen[i], s.clock))
    && (forall i, j | 0 <= i < j < |s.seen| && (s.seen[i].Fired? || s.seen[i].Lost?) && s.seen[j].Fired? :: s.seen[i].at <= s.seen[j].at)
  }

  ghost predicate WellFormed(s: State) {
    RowsOk(s) && QueueOk(s) && CurrentOk(s) && CallsOk(s) && SeenOk(s)
  }

  // ---------------------------------------------------------------------------
  // How rows evolve
  // ---------------------------------------------------------------------------

  /** What no statement ever changes in a row. */
  predicate SameJob(row: Job, other: Job) {
    row.uuid == other.uuid && row.owner == other.owner && row.createdAt == other.createdAt
  }

  predicate Kept(s: State, t: State, id: RowId)
    requires id in t.tb.jobs
  {
    id in s.tb.jobs && SameJob(s.tb.jobs[id], t.tb.jobs[id])
  }

  predicate IsNew(s: State, t: State, id: RowId)
    requires id in t.tb.jobs
  {
    id !in s.tb.jobs && t.tb.jobs[id].uuid !in s.used && t.tb.jobs[id].uuid in t.used
  }

  /** Rows keep their uuid, owner and birth, or are new with a uuid never used before, at most one at a time. */
  ghost predicate Evolves(s: State, t: State) {
    && s.used <= t.used
    && (forall id | id in t.tb.jobs :: Kept(s, t, id) || IsNew(s, t, id))
    && (forall id, other | id in t.tb.jobs && other in t.tb.jobs && IsNew(s, t, id) && IsNew(s, t, other) :: id == other)
  }

  lemma {:induction false} CatchUpKeepsIdentity(lib: CronLib, tb: Tables, due: seq<Snapshot>, now: Instant)
    requires HasParents(tb)
    ensures var tb' := CatchUpAll(lib, tb, due, now);
            && HasParents(tb') && tb'.jobs.Keys == tb.jobs.Keys
            && forall id | id in tb.jobs :: SameJob(tb.jobs[id], tb'.jobs[id])
    decreases |due|
  {
    if due != [] {
      CatchUpKeepsIdentity(lib, CatchUpOne(lib, tb, due[0], now), due[1..], now);
    }
  }

  lemma CommitKeepsParents(cfg: Config, tb: Tables, snap: Snapshot, fireTs: Instant, now: Instant,
                           raw: Outcome, stored: Outcome, next: Stamp)
    requires HasParents(tb)
    ensures HasParents(CommitFire(cfg, tb, snap, fireTs, now, raw, stored, next))
  {
    if snap.id in tb.jobs {
      PruneIsSublist(tb.fires + [Fire(snap.id, ToDb(fireTs), stored)], snap.id, ToDb(now - DAY));
    }
  }

  lemma StepEvolves(w: World, s: State, step: Step)
    requires RowsOk(s) && Enabled(w, s, step)
    ensures Evolves(s, Next(w, s, step)) && HasParents(Next(w, s, step).tb)
  {
    var t := Next(w, s, step);
    match step.event
    case Create(_, _, _, _, _) =>
    case DeleteWrite(_, target) => CascadeIsSublist(s.tb.fires, target);
    case Commit =>
      var c := s.current;
      CommitKeepsParents(w.cfg, s.tb, c.snap, c.fireTs, c.now, c.raw, c.stored, c.next);
    case Catchup(start, due) => CatchUpKeepsIdentity(w.lib, s.tb, due, start);
    case _ =>
  }

  /** Only a create adds a row. */
  lemma OnlyCreateAdds(w: World, s: State, step: Step)
    requires WellFormed(s) && Enabled(w, s, step)
    ensures !step.event.Create? ==> forall id | id in Next(w, s, step).tb.jobs :: id in s.tb.jobs
  {
    if step.event.Catchup? {
      CatchUpKeepsIdentity(w.lib, s.tb, step.event.due, step.event.start);
    }
  }

  /** A row with a uuid in use was there before, under the same id. */
  lemma RowWasThere(s: State, t: State, id: RowId, uuid: Uuid)
    requires Evolves(s, t) && uuid in s.used && HasRow(t.tb, id, uuid)
    ensures HasRow(s.tb, id, uuid) && Kept(s, t, id)
  {
    assert IsNew(s, t, id) ==> uuid !in s.used;
  }

  lemma SnapSurvives(s: State, t: State, snap: Snapshot)
    requires Evolves(s, t) && SnapOk(s, snap)
    ensures SnapOk(t, snap)
  {
    forall id | HasRow(t.tb, id, snap.job.uuid)
      ensures id == snap.id
    {
      RowWasThere(s, t, id, snap.job.uuid);
    }
  }

  lemma CallSurvives(s: State, t: State, c: Call)
    requires Evolves(s, t) && CallOk(s, c)
    ensures CallOk(t, c)
  {
    forall id | HasRow(t.tb, id, c.read.uuid)
      ensures SameJob(c.read, t.tb.jobs[id])
    {
      RowWasThere(s, t, id, c.read.uuid);
    }
  }

  lemma RowsSurvive(s: State, t: State)
    requires RowsOk(s) && Evolves(s, t) && HasParents(t.tb)
    ensures RowsOk(t)
  {
    forall id | id in t.tb.jobs
      ensures t.tb.jobs[id].uuid in t.used
    {
      assert Kept(s, t, id) || IsNew(s, t, id);
    }
    forall id, other | id in t.tb.jobs && other in t.tb.jobs && t.tb.jobs[id].uuid == t.tb.jobs[other].uuid
      ensures id == other
    {
      assert Kept(s, t, id) || IsNew(s, t, id);
      assert Kept(s, t, other) || IsNew(s, t, other);
    }
  }

  // ---------------------------------------------------------------------------
  // Every step keeps well-formedness
  // ---------------------------------------------------------------------------

  lemma QueueSurvives(w: World, s: State, step: Step)
    requires WellFormed(s) && Enabled(w, s, step) && Evolves(s, Next(w, s, step))
    ensures QueueOk(Next(w, s, step))
  {
    var t := Next(w, s, step);
    if step.event.Scan? {
      forall i | 0 <= i < |t.queue|
        ensures SnapOk(t, t.queue[i])
      {
        assert t.tb.jobs[t.queue[i].id] == t.queue[i].job;
      }
    } else {
      forall i | 0 <= i < |t.queue|
        ensures SnapOk(t, t.queue[i])
      {
        assert t.queue[i] in s.queue;
        SnapSurvives(s, t, t.queue[i]);
      }
    }
  }

  lemma CurrentSurvives(w: World, s: State, step: Step)
    requires WellFormed(s) && Enabled(w, s, step) && Evolves(s, Next(w, s, step))
    ensures CurrentOk(Next(w, s, step))
  {
    var t := Next(w, s, step);
    if IsFiring(t.current) {
      if step.event.Gate? {
        SnapSurvives(s, t, s.queue[0]);
      } else {
        SnapSurvives(s, t, t.current.snap);
      }
    }
  }

  lemma CallsSurvive(w: World, s: State, step: Step)
    requires WellFormed(s) && Enabled(w, s, step) && Evolves(s, Next(w, s, step))
    ensures CallsOk(Next(w, s, step))
  {
    var t := Next(w, s, step);
    forall c | c in t.calls
      ensures CallOk(t, t.calls[c])
    {
      if c in s.calls && t.calls[c] == s.calls[c] {
        CallSurvives(s, t, s.calls[c]);
      }
    }
  }

  lemma SeenSurvives(w: World, s: State, step: Step)
    requires WellFormed(s) && Enabled(w, s, step) && Evolves(s, Next(w, s, step))
    ensures SeenOk(Next(w, s, step)) && s.seen <= Next(w, s, step).seen
  {
  }

  /** The invariant is inductive. */
  lemma StepKeepsWellFormed(w: World, s: State, step: Step)
    requires WellFormed(s) && Enabled(w, s, step)
    ensures WellFormed(Next(w, s, step)) && Evolves(s, Next(w, s, step)) && s.seen <= Next(w, s, step).seen
  {
    StepEvolves(w, s, step);
    RowsSurvive(s, Next(w, s, step));
    QueueSurvives(w, s, step);
    CurrentSurvives(w, s, step);
    CallsSurvive(w, s, step);
    SeenSurvives(w, s, step);
  }

  lemma InitIsWellFormed(s: State)
    requires Init(s)
    ensures WellFormed(s)
  {
  }
}
