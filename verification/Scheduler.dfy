/**
 The automation engine as a state machine. One step is what happens under one hold of the database lock,
 together with the clock reading taken for it. Calls by apps run concurrently with the scheduler: an edit and
 a delete read and check ownership in one step and write in another. The scheduler fires one snapshot at a
 time, in three steps: gate, decide, commit. A process that starts disables orphans and catches up before it scans.
 */
module Scheduler {
  import opened Options
  import opened CronSchedule
  import opened JobTables
  import opened CatchUp

  type CallId = int

  /** A call between its read and its write. */
  datatype Call =
    | EditCall(caller: App, read: Job, plan: Plan)
    | DeleteCall(caller: App, read: Job)

  /** The fire in progress. `Dead` is a scheduler task that has panicked. */
  datatype Current =
    | Resting
    | Gated(snap: Snapshot, fireTs: Instant, raw: Outcome)
    | Decided(snap: Snapshot, fireTs: Instant, raw: Outcome, now: Instant, stored: Outcome, emit: bool, next: Stamp)
    | Dead

  /** What an observer of the engine sees, in order. */
  datatype Observation =
    /** A fire of the job at `at`, for `slot`; `passed` the fire gate; `live` if its row was still there. */
    | Fired(uuid: Uuid, at: Instant, slot: Stamp, trigger: Trigger, passed: bool, live: bool)
    /** Bookkeeping of a fire. */
    | Booked(uuid: Uuid, ok: bool)
    /** A disabled job was enabled again. */
    | Reenabled(uuid: Uuid)
    /** An ordinary error report about the fire at `fireTs`, decided at `at`; `own` if its own row was booked. */
    | Reported(uuid: Uuid, fireTs: Instant, at: Instant, own: bool)
    /** The process stopped in the middle of the fire at `at`, before its bookkeeping. */
    | Lost(uuid: Uuid, at: Instant, passed: bool)

  datatype State = State(
    clock: Instant,
    tb: Tables,
    used: set<Uuid>,
    calls: map<CallId, Call>,
    queue: seq<Snapshot>,
    current: Current,
    booted: bool,
    seen: seq<Observation>)

  datatype Event =
    | Create(caller: App, uuid: Uuid, id: RowId, req: CreateReq, env: Standing)
    | EditRead(call: CallId, caller: App, target: RowId, edit: EditReq, env: Standing)
    | EditWrite(call: CallId, target: RowId)
    | DeleteRead(call: CallId, caller: App, target: RowId)
    | DeleteWrite(call: CallId, target: RowId)
    | Scan(due: seq<Snapshot>)
    | Gate(raw: Outcome)
    | Decide
    | Commit
    | Unsatisfiable
    | Restart
    | Orphans(configured: set<App>)
    | Catchup(start: Instant, due: seq<Snapshot>)

  /** One step: an event and the clock reading it works with. */
  datatype Step = Step(now: Instant, event: Event)

  datatype World = World(cfg: Config, lib: CronLib)

  // ---------------------------------------------------------------------------
  // Which steps can be taken
  // ---------------------------------------------------------------------------

  predicate HasRow(tb: Tables, id: RowId, uuid: Uuid) {
    id in tb.jobs && tb.jobs[id].uuid == uuid
  }

  /** `target` is the row that a statement `WHERE uuid = ...` affects, if there is one. */
  ghost predicate Finds(tb: Tables, target: RowId, uuid: Uuid) {
    forall id | HasRow(tb, id, uuid) :: id == target
  }

  predicate IsFiring(c: Current) {
    c.Gated? || c.Decided?
  }

  predicate IsIdle(s: State) {
    s.queue == [] && s.current == Resting
  }

  /** The gate: a fire is dropped when the window already holds as many fires as the cap allows. */
  predicate GateOpen(w: World, s: State, snap: Snapshot, now: Instant) {
    CountInWindow(FireLimit, s.tb.fires, snap.id, now) < w.cfg.maxFires
  }

  /** The next fire time of the fire in progress. */
  function NextSlot(w: World, c: Current): Option<Stamp>
    requires c.Gated?
  {
    ComputeNext(w.lib, c.snap.job.trigger, c.fireTs)
  }

  ghost predicate Enabled(w: World, s: State, step: Step) {
    && s.clock <= step.now
    && match step.event
       case Create(_, uuid, id, _, _) => uuid !in s.used && IsNextRowId(s.tb.jobs, id)
       case EditRead(call, _, _, _, _) => call !in s.calls
       case EditWrite(call, target) =>
         call in s.calls && s.calls[call].EditCall? && Finds(s.tb, target, s.calls[call].read.uuid)
       case DeleteRead(call, _, _) => call !in s.calls
       case DeleteWrite(call, target) =>
         call in s.calls && s.calls[call].DeleteCall? && Finds(s.tb, target, s.calls[call].read.uuid)
       case Scan(due) => IsIdle(s) && s.booted && IsDueList(s.tb.jobs, step.now, due)
       case Gate(raw) =>
         && s.current == Resting && s.queue != [] && raw != SuppressedReport
         && (raw == RateLimit <==> !GateOpen(w, s, s.queue[0], step.now))
       case Decide => s.current.Gated? && NextSlot(w, s.current).Some?
       case Commit => s.current.Decided?
       case Unsatisfiable => s.current.Gated? && NextSlot(w, s.current).None?
       case Restart => true
       case Orphans(_) => IsIdle(s) && !s.booted
       case Catchup(start, due) => IsIdle(s) && !s.booted && s.clock <= start <= step.now && IsDueList(s.tb.jobs, step.now, due)
  }

  // ---------------------------------------------------------------------------
  // What each step does, component by component
  // ---------------------------------------------------------------------------

  /** The cap is checked and the row inserted under one hold of the lock. */
  predicate Inserts(w: World, s: State, step: Step)
    requires step.event.Create?
  {
    var e := step.event;
    && PlanCreate(w.lib, e.caller, e.req, e.uuid, e.env, step.now).Fine?
    && |JobsOf(s.tb.jobs, e.caller)| < w.cfg.maxJobs
  }

  /** The write of a call reaches the row it read, unless that has been deleted. */
  predicate Reaches(s: State, call: CallId, target: RowId) {
    call in s.calls && HasRow(s.tb, target, s.calls[call].read.uuid)
  }

  ghost function TablesAfter(w: World, s: State, step: Step): Tables
    requires Enabled(w, s, step)
  {
    match step.event
    case Create(caller, uuid, id, req, env) =>
      if Inserts(w, s, step) then InsertJob(s.tb, id, PlanCreate(w.lib, caller, req, uuid, env, step.now).value) else s.tb
    case EditWrite(call, target) =>
      if Reaches(s, call, target)
      then s.tb.(jobs := s.tb.jobs[target := EditedRow(s.tb.jobs[target], s.calls[call].plan)]) else s.tb
    case DeleteWrite(call, target) =>
      if Reaches(s, call, target) then DeleteJob(s.tb, target) else s.tb
    case Commit =>
      var c := s.current;
      CommitFire(w.cfg, s.tb, c.snap, c.fireTs, c.now, c.raw, c.stored, c.next)
    case Unsatisfiable =>
      var c := s.current;
      if c.snap.id in s.tb.jobs then DisableUnsatisfiable(s.tb, c.snap.id, c.fireTs, step.now, c.raw) else s.tb
    case Orphans(configured) => s.tb.(jobs := DisableOrphans(s.tb.jobs, configured, step.now))
    case Catchup(start, due) => CatchUpAll(w.lib, s.tb, due, start)
    case _ => s.tb
  }

  function UsedAfter(w: World, s: State, step: Step): set<Uuid> {
    if step.event.Create? && Inserts(w, s, step) then s.used + {step.event.uuid} else s.used
  }

  function CallsAfter(w: World, s: State, step: Step): map<CallId, Call> {
    match step.event
    case EditRead(call, caller, target, req, env) =>
      if target !in s.tb.jobs then s.calls
      else
        var row := s.tb.jobs[target];
        (match PlanEdit(w.lib, caller, row, req, env, step.now)
         case Refused(_) => s.calls
         case Fine(plan) => s.calls[call := EditCall(caller, row, plan)])
    case DeleteRead(call, caller, target) =>
      if target !in s.tb.jobs || s.tb.jobs[target].owner != caller then s.calls
      else s.calls[call := DeleteCall(caller, s.tb.jobs[target])]
    case EditWrite(call, _) => s.calls - {call}
    case DeleteWrite(call, _) => s.calls - {call}
    case Restart => map[]
    case _ => s.calls
  }

  /** A fire whose trigger has run out logs a row even for a deleted job; that insert fails and the scheduler dies. */
  predicate Panics(s: State, step: Step) {
    step.event.Unsatisfiable? && s.current.Gated? && s.current.snap.id !in s.tb.jobs
  }

  function QueueAfter(s: State, step: Step): seq<Snapshot> {
    match step.event
    case Scan(due) => due
    case Gate(_) => if s.queue == [] then [] else s.queue[1..]
    case Unsatisfiable => if Panics(s, step) then [] else s.queue
    case Restart => []
    case _ => s.queue
  }

  ghost function CurrentAfter(w: World, s: State, step: Step): Current
    requires Enabled(w, s, step)
  {
    match step.event
    case Gate(raw) => Gated(s.queue[0], step.now, raw)
    case Decide =>
      var c := s.current;
      var (stored, emit) := StoredOutcome(w.cfg, s.tb.fires, c.snap.id, step.now, c.raw);
      Decided(c.snap, c.fireTs, c.raw, step.now, stored, emit, NextSlot(w, c).value)
    case Commit => Resting
    case Unsatisfiable => if Panics(s, step) then Dead else Resting
    case Restart => Resting
    case _ => s.current
  }

  /** The startup pass over due jobs comes between the start of the process and its first scan. */
  predicate BootedAfter(s: State, step: Step) {
    step.event.Catchup? || (s.booted && !step.event.Restart?)
  }

  /** What a step lets an observer see. */
  function Shown(s: State, step: Step): seq<Observation> {
    match step.event
    case EditWrite(call, target) =>
      if Reaches(s, call, target) && s.calls[call].EditCall? && s.calls[call].plan.reset
      then [Reenabled(s.calls[call].read.uuid)] else []
    case Gate(raw) =>
      if s.queue == [] then []
      else
        var snap := s.queue[0];
        [Fired(snap.job.uuid, step.now, snap.job.nextFire, snap.job.trigger, raw != RateLimit,
               HasRow(s.tb, snap.id, snap.job.uuid))]
    case Commit =>
      if s.current.Decided? && s.current.snap.id in s.tb.jobs
      then CommitNotes(s.current, HasRow(s.tb, s.current.snap.id, s.current.snap.job.uuid)) else []
    case Restart =>
      if IsFiring(s.current) then [Lost(s.current.snap.job.uuid, s.current.fireTs, s.current.raw != RateLimit)] else []
    case _ => []
  }

  /** A commit shows the bookkeeping, then the report if one is due. */
  function CommitNotes(c: Current, own: bool): seq<Observation>
    requires c.Decided?
  {
    var uuid, ok := c.snap.job.uuid, c.raw == Ok;
    if c.emit then [Booked(uuid, ok), Reported(uuid, c.fireTs, c.now, own)] else [Booked(uuid, ok)]
  }

  ghost function Next(w: World, s: State, step: Step): State
    requires Enabled(w, s, step)
  {
    State(step.now, TablesAfter(w, s, step), UsedAfter(w, s, step), CallsAfter(w, s, step),
          QueueAfter(s, step), CurrentAfter(w, s, step), BootedAfter(s, step), s.seen + Shown(s, step))
  }

  /** A run: every step enabled where it is taken. */
  ghost predicate IsRun(w: World, s: State, steps: seq<Step>)
    decreases |steps|
  {
    steps == [] || (Enabled(w, s, steps[0]) && IsRun(w, Next(w, s, steps[0]), steps[1..]))
  }

  /** The state a run ends in. */
  ghost function Final(w: World, s: State, steps: seq<Step>): State
    requires IsRun(w, s, steps)
    decreases |steps|
  {
    if steps == [] then s else Final(w, Next(w, s, steps[0]), steps[1..])
  }

  lemma StepThenRun(w: World, s: State, step: Step, rest: seq<Step>)
    requires Enabled(w, s, step) && IsRun(w, Next(w, s, step), rest)
    ensures IsRun(w, s, [step] + rest) && Final(w, s, [step] + rest) == Final(w, Next(w, s, step), rest)
  {
    assert ([step] + rest)[1..] == rest;
  }

  /** `p` holds of every step of a run, in the state it is taken from. */
  ghost predicate Along(w: World, s: State, steps: seq<Step>, p: (World, State, Step) -> bool)
    requires IsRun(w, s, steps)
    decreases |steps|
  {
    steps == [] || (p(w, s, steps[0]) && Along(w, Next(w, s, steps[0]), steps[1..], p))
  }

  /** Where the process starts: any tables whose uuids are distinct and whose fires have jobs; nothing under way. */
  ghost predicate Init(s: State) {
    && IsIdle(s) && !s.booted && s.calls == map[] && s.seen == []
    && HasParents(s.tb)
    && (forall id | id in s.tb.jobs :: s.tb.jobs[id].uuid in s.used)
    && (forall id, other | id in s.tb.jobs && other in s.tb.jobs && s.tb.jobs[id].uuid == s.tb.jobs[other].uuid :: id == other)
  }
}
