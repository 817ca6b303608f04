/** The engine's statements as the program issues them, each tied to the value it computes in `JobTables`. */
module AutomationStore {
  import opened Options
  import opened CronSchedule
  import opened JobTables
  import opened CatchUp
  import Text
  import LimiterDecisions
  import opened RequestChecks
  import ScheduleInvariant
  import FailureCounter
  import Ownership

  /** How the bookkeeping of a fire ended. */
  datatype Finish = Booked(reported: bool) | JobGone | Unsatisfiable | Panicked

  class Store {
    const cfg: Config
    const lib: CronLib
    var jobs: map<RowId, Job>
    var fires: seq<Fire>

    ghost function View(): Tables
      reads this
    {
      Tables(jobs, fires)
    }

    constructor (cfg: Config, lib: CronLib, tb: Tables)
      ensures this.cfg == cfg && this.lib == lib && View() == tb
    {
      this.cfg, this.lib := cfg, lib;
      jobs, fires := tb.jobs, tb.fires;
    }

    /** All rows but this one are as they were. */
    twostate predicate OnlyRow(id: RowId)
      reads this
    {
      forall k | k != id :: (k in jobs <==> k in old(jobs)) && (k in jobs ==> jobs[k] == old(jobs)[k])
    }

    /**
     `id` is the row id the database will assign. A create is refused for the first check that fails, the cap last, and
     then changes nothing. Otherwise it adds exactly the job that was asked for, on schedule and fit to fire.
     */
    method Create(caller: App, req: CreateReq, uuid: Uuid, id: RowId, env: Standing, now: Instant) returns (r: Result<Stamp>)
      requires IsNextRowId(jobs, id)
      modifies this
      ensures OnlyRow(id) && fires == old(fires) && (r.Refused? ==> View() == old(View()))
      ensures Follows(CreateChecks(lib, req, env, now) + [CapCheck(old(jobs), caller, cfg.maxJobs)], r)
      ensures r.Fine? ==>
                && id in jobs && IsAskedFor(lib, caller, req, uuid, now, jobs[id]) && jobs[id].nextFire == r.value
                && ScheduleInvariant.OnSchedule(lib, jobs[id])
                && (cfg.failuresToDisable >= 1 ==> FailureCounter.RowFair(cfg, jobs[id]))
                && PlanCreate(lib, caller, req, uuid, env, now) == Fine(jobs[id])
      ensures forall app | |JobsOf(old(jobs), app)| <= cfg.maxJobs :: |JobsOf(jobs, app)| <= cfg.maxJobs
    {
      CreateIsExact(lib, caller, req, uuid, env, now);
      OwnedAreCounted(jobs, caller);
      CapIsLast(CreateChecks(lib, req, env, now), CapCheck(jobs, caller, cfg.maxJobs), PlanCreate(lib, caller, req, uuid, env, now));
      if !env.known {
        return Refused(MissingSender);
      }
      if !env.hasGrant {
        return Refused(MissingSender);
      }
      if !env.hasUsers {
        return Refused(OwnerHasNoUser);
      }
      if req.name == "" || Text.EncodedLength(req.name) > 128 {
        return Refused(InvalidName);
      }
      var invalid := ValidateCron(lib, req.trigger, now);
      if invalid.Some? {
        return Refused(InvalidCron(invalid.value));
      }
      var next := ComputeNext(lib, req.trigger, now);
      if next.None? {
        return Refused(InvalidCron(NeverMatches));
      }
      if !env.actionAllowed {
        return Refused(InvalidAction);
      }
      if |JobsOf(jobs, caller)| >= cfg.maxJobs {
        return Refused(TooManyJobs);
      }
      var row := Job(uuid, caller, req.name, req.trigger, req.action, req.enabled, 0, ToDb(now), ToDb(now), None, next.value, None);
      ComputeNextIsLeast(lib, req.trigger, now);
      forall app
        ensures JobsOf(jobs[id := row], app) == JobsOf(jobs, app) + if row.owner == app then {id} else {}
      {
        Ownership.JobsGrowByOne(jobs, id, row, app);
      }
      jobs := jobs[id := row];
      return Fine(next.value);
    }

    /**
     The write of an edit; false when the job was deleted since the edit read it. What identifies the job and what it has
     done are not the edit's to change; its failures are forgiven exactly when the plan says so.
     */
    method UpdateJob(target: RowId, uuid: Uuid, plan: Plan) returns (updated: bool)
      modifies this`jobs
      ensures updated == (target in old(jobs) && old(jobs)[target].uuid == uuid)
      ensures OnlyRow(target) && (!updated ==> jobs == old(jobs))
      ensures updated ==>
                && target in jobs
                && (var was, row := old(jobs)[target], jobs[target];
                    && row.uuid == was.uuid && row.owner == was.owner && row.createdAt == was.createdAt && row.lastFired == was.lastFired
                    && row.failures == (if plan.reset then 0 else was.failures)
                    && row.autoDisabledAt == (if plan.reset then None else was.autoDisabledAt)
                    && row == EditedRow(was, plan))
    {
      if target !in jobs || jobs[target].uuid != uuid {
        return false;
      }
      var row := jobs[target];
      if plan.reset {
        jobs := jobs[target := row.(name := plan.name, trigger := plan.trigger, action := plan.action, enabled := plan.enabled,
                                    updatedAt := ToDb(plan.at), nextFire := plan.nextFire, failures := 0, autoDisabledAt := None)];
      } else {
        jobs := jobs[target := row.(name := plan.name, trigger := plan.trigger, action := plan.action, enabled := plan.enabled,
                                    updatedAt := ToDb(plan.at), nextFire := plan.nextFire)];
      }
      return true;
    }

    /**
     A whole edit, without interference. It is refused for the first check that fails, and then changes nothing. Otherwise
     it changes what the request names and nothing else. A job on schedule stays so, and one fit to fire too.
     */
    method Edit(caller: App, target: RowId, req: EditReq, env: Standing, now: Instant) returns (r: Result<Job>)
      modifies this`jobs
      ensures OnlyRow(target) && (r.Refused? ==> jobs == old(jobs))
      ensures target !in old(jobs) ==> r == Refused(NotFound)
      ensures target in old(jobs) ==> Follows(EditChecks(lib, caller, old(jobs)[target], req, env, now), r)
      ensures r.Fine? ==>
                && target in old(jobs) && target in jobs && jobs[target] == r.value
                && IsEdited(lib, old(jobs)[target], req, now, r.value)
      ensures r.Fine? && FromDb(old(jobs)[target].createdAt) <= now && ScheduleInvariant.OnSchedule(lib, old(jobs)[target]) ==>
                ScheduleInvariant.OnSchedule(lib, r.value)
      ensures r.Fine? && cfg.failuresToDisable >= 1 && FailureCounter.RowFair(cfg, old(jobs)[target]) ==>
                FailureCounter.RowFair(cfg, r.value)
    {
      if target !in jobs {
        return Refused(NotFound);
      }
      var row := jobs[target];
      var plan := CheckEdit(caller, row, req, env, now);
      EditIsChecked(lib, caller, row, req, env, now);
      if plan.Refused? {
        return Refused(plan.why);
      }
      EditIsExact(lib, caller, row, req, env, now);
      EditIsSound(cfg, lib, caller, row, req, env, now);
      var _ := UpdateJob(target, row.uuid, plan.value);
      return Fine(jobs[target]);
    }

    /** The checks of an edit, in order. */
    method CheckEdit(caller: App, row: Job, req: EditReq, env: Standing, now: Instant) returns (r: Result<Plan>)
      ensures r == PlanEdit(lib, caller, row, req, env, now)
    {
      if row.owner != caller || !env.known || !env.hasUsers {
        return Refused(Forbidden);
      }
      if req.name.Some? && (req.name.value == "" || Text.EncodedLength(req.name.value) > 128) {
        return Refused(InvalidName);
      }
      var next := row.nextFire;
      if req.trigger.Some? {
        var invalid := ValidateCron(lib, req.trigger.value, now);
        if invalid.Some? {
          return Refused(InvalidCron(invalid.value));
        }
        var anchor := if row.lastFired.Some? && FromDb(row.lastFired.value) > now then FromDb(row.lastFired.value) else now;
        var first := ComputeNext(lib, req.trigger.value, anchor);
        if first.None? {
          return Refused(InvalidCron(NeverMatches));
        }
        next := first.value;
      }
      if !env.hasGrant {
        return Refused(Unauthorized);
      }
      if req.action.Some? && !env.actionAllowed {
        return Refused(InvalidAction);
      }
      var enabled := if req.enabled.Some? then req.enabled.value else row.enabled;
      return Fine(Plan(Or(req.name, row.name), Or(req.trigger, row.trigger), Or(req.action, row.action),
                       enabled, now, next, enabled && !row.enabled));
    }

    /** A whole delete, without interference: only of a job that is there, and only by its owner. */
    method Delete(caller: App, target: RowId) returns (r: Result<Uuid>)
      modifies this
      ensures target !in old(jobs) ==> r == Refused(NotFound)
      ensures target in old(jobs) ==> r == if old(jobs)[target].owner == caller then Fine(old(jobs)[target].uuid) else Refused(Forbidden)
      ensures OnlyRow(target) && (r.Refused? ==> View() == old(View()))
      ensures r.Fine? ==> target !in jobs && forall f: Fire :: f in fires <==> f in old(fires) && f.job != target
    {
      if target !in jobs {
        return Refused(NotFound);
      }
      var row := jobs[target];
      if row.owner != caller {
        return Refused(Forbidden);
      }
      DeleteRow(target, row.uuid);
      return Fine(row.uuid);
    }

    /** The write of a delete: exactly the job and its fires go, so no count of another job changes. */
    method DeleteRow(target: RowId, uuid: Uuid)
      modifies this
      ensures View() == if target in old(jobs) && old(jobs)[target].uuid == uuid then DeleteJob(old(View()), target) else old(View())
      ensures OnlyRow(target)
      ensures target in old(jobs) && old(jobs)[target].uuid == uuid ==>
                target !in jobs && forall f: Fire :: f in fires <==> f in old(fires) && f.job != target
      ensures forall limit, id, from | id != target :: CountRows(limit, fires, id, from) == CountRows(limit, old(fires), id, from)
    {
      if target in jobs && jobs[target].uuid == uuid {
        CascadeIsSublist(fires, target);
        forall limit, id, from | id != target
          ensures CountRows(limit, Cascade(fires, target), id, from) == CountRows(limit, fires, id, from)
        {
          CascadeKeepsOthers(limit, fires, target, id, from);
        }
        jobs := jobs - {target};
        fires := Cascade(fires, target);
      }
    }

    /**
     UPDATE, INSERT and prune; false when the job was deleted between scan and bookkeeping, and then nothing is written.
     The fire is booked on the row, disabling it exactly when the failure reaches the threshold, and logged; and exactly
     the job's rows older than a day go.
     */
    method CommitRow(snap: Snapshot, fireTs: Instant, now: Instant, raw: Outcome, stored: Outcome, next: Stamp) returns (updated: bool)
      modifies this
      ensures updated == (snap.id in old(jobs)) && OnlyRow(snap.id) && (!updated ==> View() == old(View()))
      ensures updated ==> snap.id in jobs && IsBooked(cfg, old(jobs)[snap.id], snap.job.failures, fireTs, now, raw, next, jobs[snap.id])
      ensures updated ==> forall f: Fire :: f in fires <==>
                && (f in old(fires) || f == Fire(snap.id, fireTs / 1_000_000_000, stored))
                && !(f.job == snap.id && f.at < (now - 86_400_000_000_000) / 1_000_000_000)
      ensures View() == CommitFire(cfg, old(View()), snap, fireTs, now, raw, stored, next)
    {
      if snap.id !in jobs {
        return false;
      }
      var row := jobs[snap.id];
      var failures := if raw == Ok then 0 else snap.job.failures + 1;
      if raw != Ok && failures >= cfg.failuresToDisable {
        row := row.(lastFired := Some(ToDb(fireTs)), failures := failures, nextFire := next,
                    enabled := false, autoDisabledAt := Some(ToDb(now)), updatedAt := ToDb(now));
      } else if raw == Ok {
        row := row.(lastFired := Some(ToDb(fireTs)), failures := 0, nextFire := next, updatedAt := ToDb(now));
      } else {
        row := row.(lastFired := Some(ToDb(fireTs)), failures := failures, nextFire := next, updatedAt := ToDb(now));
      }
      jobs := jobs[snap.id := row];
      fires := fires + [Fire(snap.id, ToDb(fireTs), stored)];
      PruneIsSublist(fires, snap.id, ToDb(now - DAY));
      fires := Prune(fires, snap.id, ToDb(now - DAY));
      return true;
    }

    /**
     A trigger that has run out: the job is never due again, and its fire counts with both limiters like any other that
     passed the gate and failed. For a deleted job the insert violates the foreign key, and nothing is written.
     */
    method HandleUnsatisfiableCron(id: RowId, fireTs: Instant, now: Instant, raw: Outcome) returns (ok: bool)
      modifies this
      ensures ok == (id in old(jobs))
      ensures View() == if ok then DisableUnsatisfiable(old(View()), id, fireTs, now, raw) else old(View())
      ensures OnlyRow(id)
      ensures ok ==> id in jobs && IsStopped(old(jobs)[id], now, jobs[id]) && forall t :: !IsDue(jobs[id], t)
      ensures ok ==> fires == old(fires) + [Fire(id, fireTs / 1_000_000_000, if raw == Ok then ActionError else raw)]
      ensures ok && raw != RateLimit && raw != SuppressedReport ==>
                forall limit, job, from ::
                  CountRows(limit, fires, job, from) ==
                  CountRows(limit, old(fires), job, from) + if job == id && from <= ToDb(fireTs) then 1 else 0
    {
      if id !in jobs {
        return false;
      }
      jobs := jobs[id := jobs[id].(enabled := false, autoDisabledAt := Some(ToDb(now)), updatedAt := ToDb(now))];
      var row := Fire(id, ToDb(fireTs), if raw == Ok then ActionError else raw);
      forall limit, job, from
        ensures CountRows(limit, fires + [row], job, from) == CountRows(limit, fires, job, from) + if CountsRow(limit, row, job, from) then 1 else 0
      {
        CountRowsSnoc(limit, fires, row, job, from);
      }
      fires := fires + [row];
      return true;
    }

    /**
     The bookkeeping of one fire, without interference. While the trigger has an occurrence left and the job its row, the
     fire is booked for the least one; it is reported exactly when it failed and fewer than the cap of the job's rows of
     the last hour were; and it is logged as it was if it succeeded or was reported, and otherwise as suppressed.
     */
    method FinishFire(snap: Snapshot, fireTs: Instant, now: Instant, raw: Outcome) returns (r: Finish)
      modifies this
      ensures OnlyRow(snap.id)
      ensures r.JobGone? <==> snap.id !in old(jobs) && !NoneAfter(lib, snap.job.trigger, fireTs)
      ensures r.Panicked? <==> snap.id !in old(jobs) && NoneAfter(lib, snap.job.trigger, fireTs)
      ensures r.Unsatisfiable? <==> snap.id in old(jobs) && NoneAfter(lib, snap.job.trigger, fireTs)
      ensures r.JobGone? || r.Panicked? ==> View() == old(View())
      ensures r.Unsatisfiable? ==> View() == DisableUnsatisfiable(old(View()), snap.id, fireTs, now, raw)
      ensures r.Booked? ==>
                && (r.reported <==> raw != Ok && |LimiterDecisions.ReportedRows(old(fires), snap.id, now)| < cfg.maxReports)
                && (var row := Fire(snap.id, fireTs / 1_000_000_000, if raw == Ok || r.reported then raw else SuppressedReport);
                    forall f: Fire :: f in fires <==>
                      && (f in old(fires) || f == row)
                      && !(f.job == snap.id && f.at < (now - 86_400_000_000_000) / 1_000_000_000))
      ensures r.Booked? ==>
                && snap.id in old(jobs) && snap.id in jobs
                && (var next := jobs[snap.id].nextFire;
                    && IsOccurrence(lib, snap.job.trigger, next) && fireTs < FromDb(next)
                    && NoneBetween(lib, snap.job.trigger, fireTs, FromDb(next))
                    && IsBooked(cfg, old(jobs)[snap.id], snap.job.failures, fireTs, now, raw, next, jobs[snap.id])
                    && View() == CommitFire(cfg, old(View()), snap, fireTs, now, raw,
                                            StoredOutcome(cfg, old(fires), snap.id, now, raw).0, next))
    {
      var next := ComputeNext(lib, snap.job.trigger, fireTs);
      ComputeNextIsLeast(lib, snap.job.trigger, fireTs);
      LimiterDecisions.ReportedRowsAreCounted(fires, snap.id, now);
      if next.None? {
        var ok := HandleUnsatisfiableCron(snap.id, fireTs, now, raw);
        return if ok then Unsatisfiable else Panicked;
      }
      var stored, emit := raw, false;
      if raw != Ok {
        var reports := CountInWindow(ReportLimit, fires, snap.id, now);
        if reports >= cfg.maxReports {
          stored := SuppressedReport;
        } else {
          emit := true;
        }
      }
      var updated := CommitRow(snap, fireTs, now, raw, stored, next.value);
      return if updated then Booked(emit) else JobGone;
    }

    /** The startup pass over due jobs, in the order of the list. */
    method RunStartupCatchup(due: seq<Snapshot>, now: Instant)
      requires Pending(Tables(jobs, fires), due)
      modifies this
      ensures View() == CatchUpAll(lib, old(View()), due, now)
    {
      ghost var rest, tb := due, View();
      for i := 0 to |due|
        invariant rest == due[i..] && Pending(View(), rest)
        invariant CatchUpAll(lib, View(), rest, now) == CatchUpAll(lib, tb, due, now)
      {
        var snap := due[i];
        ghost var before := View();
        if !snap.job.trigger.persistent {
          AdvanceJob(snap, now);
        }
        assert View() == CatchUpOne(lib, before, rest[0], now);
        rest := rest[1..];
      }
    }

    /** One due job that is not persistent. */
    method AdvanceJob(snap: Snapshot, now: Instant)
      requires snap.id in jobs && jobs[snap.id] == snap.job && !snap.job.trigger.persistent
      modifies this
      ensures View() == CatchUpOne(lib, old(View()), snap, now)
    {
      var anchor := if snap.job.lastFired.Some? then snap.job.lastFired.value else snap.job.createdAt;
      var mostRecent := WalkToMostRecentPast(lib, snap.job.trigger, FromDb(anchor), now);
      var next := ComputeNext(lib, snap.job.trigger, now);
      if next.None? {
        jobs := jobs[snap.id := jobs[snap.id].(enabled := false, autoDisabledAt := Some(ToDb(now)), updatedAt := ToDb(now))];
        fires := fires + [Fire(snap.id, ToDb(now), ActionError)];
        return;
      }
      jobs := jobs[snap.id := jobs[snap.id].(lastFired := mostRecent, nextFire := next.value, updatedAt := ToDb(now))];
    }
  }

  /** What the bookkeeping of a fire makes of the row, when the job was scanned with this many failures. */
  predicate IsBooked(cfg: Config, was: Job, failures: int, fireTs: Instant, now: Instant, raw: Outcome, next: Stamp, row: Job) {
    var stops := raw != Ok && failures + 1 >= cfg.failuresToDisable;
    && row.uuid == was.uuid && row.owner == was.owner && row.name == was.name && row.trigger == was.trigger
    && row.action == was.action && row.createdAt == was.createdAt
    && row.lastFired == Some(fireTs / 1_000_000_000) && row.nextFire == next && row.updatedAt == now / 1_000_000_000
    && row.failures == (if raw == Ok then 0 else failures + 1)
    && row.enabled == (was.enabled && !stops)
    && row.autoDisabledAt == (if stops then Some(now / 1_000_000_000) else was.autoDisabledAt)
  }

  lemma EditIsSound(cfg: Config, lib: CronLib, caller: App, was: Job, req: EditReq, env: Standing, now: Instant)
    requires PlanEdit(lib, caller, was, req, env, now).Fine?
    ensures var row := EditedRow(was, PlanEdit(lib, caller, was, req, env, now).value);
            && (FromDb(was.createdAt) <= now && ScheduleInvariant.OnSchedule(lib, was) ==> ScheduleInvariant.OnSchedule(lib, row))
            && (cfg.failuresToDisable >= 1 && FailureCounter.RowFair(cfg, was) ==> FailureCounter.RowFair(cfg, row))
  {
    if req.trigger.Some? {
      ComputeNextIsLeast(lib, req.trigger.value, EditAnchor(was, now));
    }
  }
}
