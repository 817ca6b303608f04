/** The automation tables as values, and the statements that read and write them. */
module JobTables {
  import opened Options
  import opened CronSchedule
  import opened Text

  type RowId = int
  type Uuid = int
  type App = string

  const HOUR := 3600 * NANOS
  const DAY := 24 * HOUR

  datatype Outcome = Ok | Auth | Budget | RateLimit | SuppressedReport | ActionError | AppGone

  datatype Job = Job(
    uuid: Uuid,
    owner: App,
    name: string,
    trigger: Trigger,
    action: string,
    enabled: bool,
    failures: int,
    createdAt: Stamp,
    updatedAt: Stamp,
    lastFired: Option<Stamp>,
    nextFire: Stamp,
    autoDisabledAt: Option<Stamp>)

  datatype Fire = Fire(job: RowId, at: Stamp, outcome: Outcome)

  datatype Tables = Tables(jobs: map<RowId, Job>, fires: seq<Fire>)

  /** A copy of a row, taken when the scheduler scanned it. */
  datatype Snapshot = Snapshot(id: RowId, job: Job)

  datatype Config = Config(maxFires: nat, maxReports: nat, failuresToDisable: nat, maxJobs: nat)

  // ---------------------------------------------------------------------------
  // The fire log: two counts over a sliding window
  // ---------------------------------------------------------------------------

  /** The two limiters: fires let through the gate, and errors reported. */
  datatype Limit = FireLimit | ReportLimit

  /** Which rows a limiter counts. */
  predicate Counts(limit: Limit, outcome: Outcome) {
    match limit
    case FireLimit => outcome != RateLimit
    case ReportLimit => outcome != Ok && outcome != SuppressedReport
  }

  predicate CountsRow(limit: Limit, f: Fire, job: RowId, from: Stamp) {
    f.job == job && f.at >= from && Counts(limit, f.outcome)
  }

  function CountRows(limit: Limit, fires: seq<Fire>, job: RowId, from: Stamp): nat {
    if fires == [] then 0
    else
      var n := |fires| - 1;
      CountRows(limit, fires[..n], job, from) + if CountsRow(limit, fires[n], job, from) then 1 else 0
  }

  /** The count a limiter takes at `now`, over the last hour. */
  function CountInWindow(limit: Limit, fires: seq<Fire>, job: RowId, now: Instant): nat {
    CountRows(limit, fires, job, ToDb(now - HOUR))
  }

  /** The log without the rows of `job` older than `before`. */
  function Prune(fires: seq<Fire>, job: RowId, before: Stamp): seq<Fire> {
    if fires == [] then []
    else
      var n := |fires| - 1;
      var front := Prune(fires[..n], job, before);
      if fires[n].job == job && fires[n].at < before then front else front + [fires[n]]
  }

  /** The log without the rows of `job`. */
  function Cascade(fires: seq<Fire>, job: RowId): seq<Fire> {
    if fires == [] then []
    else
      var n := |fires| - 1;
      var front := Cascade(fires[..n], job);
      if fires[n].job == job then front else front + [fires[n]]
  }

  lemma CountRowsSnoc(limit: Limit, fires: seq<Fire>, f: Fire, job: RowId, from: Stamp)
    ensures CountRows(limit, fires + [f], job, from) ==
            CountRows(limit, fires, job, from) + if CountsRow(limit, f, job, from) then 1 else 0
  {
    assert (fires + [f])[..|fires|] == fires;
  }

  /** Pruning loses nothing from a window that starts no earlier than the pruning mark. */
  lemma {:induction false} PruneKeepsWindow(limit: Limit, fires: seq<Fire>, job: RowId, before: Stamp, other: RowId, from: Stamp)
    requires before <= from
    ensures CountRows(limit, Prune(fires, job, before), other, from) == CountRows(limit, fires, other, from)
  {
    if fires != [] {
      var n := |fires| - 1;
      PruneKeepsWindow(limit, fires[..n], job, before, other, from);
      CountRowsSnoc(limit, Prune(fires[..n], job, before), fires[n], other, from);
    }
  }

  lemma {:induction false} CascadeKeepsOthers(limit: Limit, fires: seq<Fire>, job: RowId, other: RowId, from: Stamp)
    requires other != job
    ensures CountRows(limit, Cascade(fires, job), other, from) == CountRows(limit, fires, other, from)
  {
    if fires != [] {
      var n := |fires| - 1;
      CascadeKeepsOthers(limit, fires[..n], job, other, from);
      CountRowsSnoc(limit, Cascade(fires[..n], job), fires[n], other, from);
    }
  }

  /** Every row of the log refers to a row of the job table. */
  predicate HasParents(tb: Tables) {
    forall i | 0 <= i < |tb.fires| :: tb.fires[i].job in tb.jobs
  }

  lemma {:induction false} PruneIsSublist(fires: seq<Fire>, job: RowId, before: Stamp)
    ensures forall f :: f in Prune(fires, job, before) <==> f in fires && !(f.job == job && f.at < before)
  {
    if fires != [] {
      PruneIsSublist(fires[..|fires| - 1], job, before);
      assert fires == fires[..|fires| - 1] + [fires[|fires| - 1]];
    }
  }

  lemma {:induction false} CascadeIsSublist(fires: seq<Fire>, job: RowId)
    ensures forall f :: f in Cascade(fires, job) <==> f in fires && f.job != job
  {
    if fires != [] {
      CascadeIsSublist(fires[..|fires| - 1], job);
      assert fires == fires[..|fires| - 1] + [fires[|fires| - 1]];
    }
  }

  // ---------------------------------------------------------------------------
  // Jobs
  // ---------------------------------------------------------------------------

  /** The row id the database assigns: one more than the largest in use, so the largest may be used again. */
  predicate IsNextRowId(jobs: map<RowId, Job>, id: RowId) {
    && (forall k | k in jobs :: k < id)
    && (id - 1 in jobs || (id == 1 && forall k | k in jobs :: false))
  }

  /** The rows of one app. */
  function JobsOf(jobs: map<RowId, Job>, app: App): set<RowId> {
    set id | id in jobs && jobs[id].owner == app
  }

  function InsertJob(tb: Tables, id: RowId, job: Job): Tables {
    tb.(jobs := tb.jobs[id := job])
  }

  /** Deleting a row deletes its fires. */
  function DeleteJob(tb: Tables, id: RowId): Tables {
    Tables(tb.jobs - {id}, Cascade(tb.fires, id))
  }

  predicate IsDue(job: Job, now: Instant) {
    job.enabled && job.nextFire <= ToDb(now)
  }

  /** `due` lists every due job once, in the order of its fire time. */
  ghost predicate IsDueList(jobs: map<RowId, Job>, now: Instant, due: seq<Snapshot>) {
    && (forall i | 0 <= i < |due| :: due[i].id in jobs && jobs[due[i].id] == due[i].job && IsDue(due[i].job, now))
    && (forall id | id in jobs && IsDue(jobs[id], now) :: Snapshot(id, jobs[id]) in due)
    && (forall i, j | 0 <= i < j < |due| :: due[i].id != due[j].id && due[i].job.nextFire <= due[j].job.nextFire)
  }

  // ---------------------------------------------------------------------------
  // Bookkeeping of one fire
  // ---------------------------------------------------------------------------

  /** The new count of consecutive failures, from the snapshot's. */
  function NewFailures(snap: Snapshot, raw: Outcome): int {
    if raw == Ok then 0 else snap.job.failures + 1
  }

  predicate Disables(cfg: Config, snap: Snapshot, raw: Outcome) {
    raw != Ok && NewFailures(snap, raw) >= cfg.failuresToDisable
  }

  /** The outcome to store, and whether to report it: past the report cap, neither the outcome nor a report. */
  function StoredOutcome(cfg: Config, fires: seq<Fire>, id: RowId, now: Instant, raw: Outcome): (Outcome, bool) {
    if raw == Ok then (Ok, false)
    else if CountInWindow(ReportLimit, fires, id, now) >= cfg.maxReports then (SuppressedReport, false)
    else (raw, true)
  }

  /** A job row after a fire of `snap` at `fireTs`, booked with clock reading `now`. */
  function FiredRow(cfg: Config, row: Job, snap: Snapshot, fireTs: Instant, now: Instant, raw: Outcome, next: Stamp): Job {
    var disable := Disables(cfg, snap, raw);
    row.(lastFired := Some(ToDb(fireTs)),
         failures := NewFailures(snap, raw),
         nextFire := next,
         enabled := row.enabled && !disable,
         autoDisabledAt := if disable then Some(ToDb(now)) else row.autoDisabledAt,
         updatedAt := ToDb(now))
  }

  /** The tables after the bookkeeping of a fire: unchanged when the row is gone. */
  function CommitFire(cfg: Config, tb: Tables, snap: Snapshot, fireTs: Instant, now: Instant,
                      raw: Outcome, stored: Outcome, next: Stamp): Tables {
    if snap.id !in tb.jobs then tb
    else
      Tables(
        tb.jobs[snap.id := FiredRow(cfg, tb.jobs[snap.id], snap, fireTs, now, raw, next)],
        Prune(tb.fires + [Fire(snap.id, ToDb(fireTs), stored)], snap.id, ToDb(now - DAY)))
  }

  /** The job was disabled by the engine at this moment, and nothing else of it changed. */
  predicate IsStopped(was: Job, now: Instant, row: Job) {
    && !row.enabled && row.autoDisabledAt == Some(now / 1_000_000_000) && row.updatedAt == now / 1_000_000_000
    && row.uuid == was.uuid && row.owner == was.owner && row.name == was.name && row.trigger == was.trigger
    && row.action == was.action && row.failures == was.failures && row.createdAt == was.createdAt
    && row.lastFired == was.lastFired && row.nextFire == was.nextFire
  }

  function DisabledRow(row: Job, now: Instant): Job {
    row.(enabled := false, autoDisabledAt := Some(ToDb(now)), updatedAt := ToDb(now))
  }

  /** The tables after a fire whose trigger has no occurrence left. */
  function DisableUnsatisfiable(tb: Tables, id: RowId, fireTs: Instant, now: Instant, raw: Outcome): Tables
    requires id in tb.jobs
  {
    Tables(tb.jobs[id := DisabledRow(tb.jobs[id], now)],
           tb.fires + [Fire(id, ToDb(fireTs), if raw == Ok then ActionError else raw)])
  }

  // ---------------------------------------------------------------------------
  // Create and edit
  // ---------------------------------------------------------------------------

  /** What the configuration and the directory say about the calling app. */
  datatype Standing = Standing(known: bool, hasGrant: bool, hasUsers: bool, actionAllowed: bool)

  datatype CreateReq = CreateReq(name: string, trigger: Trigger, action: string, enabled: bool)

  datatype EditReq = EditReq(name: Option<string>, trigger: Option<Trigger>, action: Option<string>, enabled: Option<bool>)

  datatype Refusal =
    | MissingSender | OwnerHasNoUser | NotFound | Forbidden | Unauthorized
    | InvalidName | InvalidCron(error: CronError) | InvalidAction | TooManyJobs

  datatype Result<+T> = Fine(value: T) | Refused(why: Refusal)

  predicate IsValidName(name: string) {
    name != "" && EncodedLength(name) <= 128
  }

  /** The row a create would insert. */
  function PlanCreate(lib: CronLib, caller: App, req: CreateReq, uuid: Uuid, env: Standing, now: Instant): Result<Job> {
    if !env.known || !env.hasGrant then Refused(MissingSender)
    else if !env.hasUsers then Refused(OwnerHasNoUser)
    else if !IsValidName(req.name) then Refused(InvalidName)
    else if ValidateCron(lib, req.trigger, now).Some? then Refused(InvalidCron(ValidateCron(lib, req.trigger, now).value))
    else
      match ComputeNext(lib, req.trigger, now)
      case None => Refused(InvalidCron(NeverMatches))
      case Some(next) =>
        if !env.actionAllowed then Refused(InvalidAction)
        else Fine(Job(uuid, caller, req.name, req.trigger, req.action, req.enabled, 0,
                      ToDb(now), ToDb(now), None, next, None))
  }

  /** What an edit will write, decided from the row it read. */
  datatype Plan = Plan(name: string, trigger: Trigger, action: string, enabled: bool, at: Instant, nextFire: Stamp, reset: bool)

  function Or<T>(o: Option<T>, other: T): T {
    if o.Some? then o.value else other
  }

  function Max(a: int, b: int): int {
    if a < b then b else a
  }

  /** Where a new trigger's first occurrence is searched from: editing never fires missed slots. */
  function EditAnchor(row: Job, now: Instant): Instant {
    if row.lastFired.Some? then Max(FromDb(row.lastFired.value), now) else now
  }

  /** The schedule an edit leaves: recomputed only when the request has a trigger. */
  function PlanSchedule(lib: CronLib, row: Job, req: EditReq, now: Instant): Result<Stamp> {
    if req.trigger.None? then Fine(row.nextFire)
    else if ValidateCron(lib, req.trigger.value, now).Some? then
      Refused(InvalidCron(ValidateCron(lib, req.trigger.value, now).value))
    else
      match ComputeNext(lib, req.trigger.value, EditAnchor(row, now))
      case None => Refused(InvalidCron(NeverMatches))
      case Some(next) => Fine(next)
  }

  function PlanEdit(lib: CronLib, caller: App, row: Job, req: EditReq, env: Standing, now: Instant): Result<Plan> {
    if row.owner != caller then Refused(Forbidden)
    else if !env.known || !env.hasUsers then Refused(Forbidden)
    else if req.name.Some? && !IsValidName(req.name.value) then Refused(InvalidName)
    else
      match PlanSchedule(lib, row, req, now)
      case Refused(why) => Refused(why)
      case Fine(next) =>
        if !env.hasGrant then Refused(Unauthorized)
        else if req.action.Some? && !env.actionAllowed then Refused(InvalidAction)
        else
          var enabled := Or(req.enabled, row.enabled);
          Fine(Plan(Or(req.name, row.name), Or(req.trigger, row.trigger), Or(req.action, row.action),
                    enabled, now, next, enabled && !row.enabled))
  }

  /** A row after an edit's write. Re-enabling forgives past failures. */
  function EditedRow(row: Job, p: Plan): Job {
    var r := row.(name := p.name, trigger := p.trigger, action := p.action, enabled := p.enabled,
                  updatedAt := ToDb(p.at), nextFire := p.nextFire);
    if p.reset then r.(failures := 0, autoDisabledAt := None) else r
  }

  // ---------------------------------------------------------------------------
  // Startup
  // ---------------------------------------------------------------------------

  /** Enabled jobs of apps that are no longer configured are disabled; nothing else changes. */
  function DisableOrphans(jobs: map<RowId, Job>, configured: set<App>, now: Instant): map<RowId, Job> {
    map id | id in jobs ::
      if jobs[id].enabled && jobs[id].owner !in configured then DisabledRow(jobs[id], now) else jobs[id]
  }
}
