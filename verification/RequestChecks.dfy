/** What a create and an edit are checked for, in order: each refusal is that of the first check that fails. */
module RequestChecks {
  import opened Options
  import opened Text
  import opened CronSchedule
  import opened JobTables

  datatype Check = Check(holds: bool, otherwise: Refusal)

  /** Check `i` is the first that fails. */
  ghost predicate FailsFirst(checks: seq<Check>, i: nat, why: Refusal) {
    i < |checks| && checks[i] == Check(false, why) && forall j | 0 <= j < i :: checks[j].holds
  }

  ghost predicate AllHold(checks: seq<Check>) {
    forall i | 0 <= i < |checks| :: checks[i].holds
  }

  /** The result goes by the checks. */
  ghost predicate Follows<T>(checks: seq<Check>, r: Result<T>) {
    match r
    case Fine(_) => AllHold(checks)
    case Refused(why) => exists i: nat :: FailsFirst(checks, i, why)
  }

  /** The name has 1 to 128 bytes. */
  predicate HasGoodName(name: string) {
    1 <= EncodedLength(name) <= 128
  }

  /** A trigger has five fields that parse, a zone that is known, and an occurrence ahead. */
  ghost function TriggerChecks(lib: CronLib, trigger: Trigger, now: Instant): seq<Check> {
    [Check(lib.fieldCount(trigger.expr) == 5, InvalidCron(WrongFieldCount(lib.fieldCount(trigger.expr)))),
     Check(lib.parses(trigger.expr), InvalidCron(ParseError)),
     Check(trigger.tz != "" && lib.knownZone(trigger.tz), InvalidCron(InvalidTimezone)),
     Check(!NoneAfter(lib, trigger, now), InvalidCron(NeverMatches))]
  }

  /** The app is known, may publish and has a user; the name is good; the trigger is good; the action is allowed. */
  ghost function CreateChecks(lib: CronLib, req: CreateReq, env: Standing, now: Instant): seq<Check> {
    SenderChecks(req, env) + TriggerChecks(lib, req.trigger, now) + [Check(env.actionAllowed, InvalidAction)]
  }

  ghost function SenderChecks(req: CreateReq, env: Standing): seq<Check> {
    [Check(env.known && env.hasGrant, MissingSender), Check(env.hasUsers, OwnerHasNoUser), Check(HasGoodName(req.name), InvalidName)]
  }

  /** The app has fewer jobs than the cap. */
  ghost function CapCheck(jobs: map<RowId, Job>, caller: App, cap: nat): Check {
    Check(|OwnedBy(jobs, caller)| < cap, TooManyJobs)
  }

  ghost function OwnedBy(jobs: map<RowId, Job>, app: App): set<RowId> {
    set id | id in jobs && jobs[id].owner == app
  }

  lemma OwnedAreCounted(jobs: map<RowId, Job>, app: App)
    ensures OwnedBy(jobs, app) == JobsOf(jobs, app)
  {
  }

  /** With the cap behind the other checks, a create that passes them is refused for the cap alone. */
  lemma CapIsLast<T>(checks: seq<Check>, cap: Check, plan: Result<T>)
    requires Follows(checks, plan)
    ensures plan.Refused? ==> exists i: nat :: FailsFirst(checks + [cap], i, plan.why)
    ensures plan.Fine? && !cap.holds ==> exists i: nat :: FailsFirst(checks + [cap], i, cap.otherwise)
    ensures plan.Fine? && cap.holds ==> AllHold(checks + [cap])
  {
    if plan.Refused? {
      FailsInside([], checks, [cap], plan.why);
      assert [] + checks + [cap] == checks + [cap];
    } else if !cap.holds {
      assert FailsFirst(checks + [cap], |checks|, cap.otherwise);
    }
  }

  lemma EmptyNameHasNoBytes(name: string)
    ensures EncodedLength(name) == 0 <==> name == ""
  {
  }

  lemma {:induction false} TriggerIsChecked(lib: CronLib, trigger: Trigger, now: Instant)
    ensures var checks := TriggerChecks(lib, trigger, now);
            match ValidateCron(lib, trigger, now)
            case None => AllHold(checks) && ComputeNext(lib, trigger, now).Some?
            case Some(e) => exists i: nat :: FailsFirst(checks, i, InvalidCron(e))
  {
    var checks := TriggerChecks(lib, trigger, now);
    ComputeNextIsLeast(lib, trigger, now);
    if !checks[0].holds {
      assert FailsFirst(checks, 0, checks[0].otherwise);
    } else if !checks[1].holds {
      assert FailsFirst(checks, 1, checks[1].otherwise);
    } else if !checks[2].holds {
      assert FailsFirst(checks, 2, checks[2].otherwise);
    } else if !checks[3].holds {
      assert FailsFirst(checks, 3, checks[3].otherwise);
    }
  }

  /** Checks in front that hold, and any behind, do not change which of the middle fails first. */
  lemma FailsInside(front: seq<Check>, mid: seq<Check>, back: seq<Check>, why: Refusal)
    requires AllHold(front) && exists i: nat :: FailsFirst(mid, i, why)
    ensures exists i: nat :: FailsFirst(front + mid + back, i, why)
  {
    var i: nat :| FailsFirst(mid, i, why);
    var all := front + mid + back;
    assert all[|front| + i] == mid[i];
    assert forall j | 0 <= j < |front| + i :: all[j] == if j < |front| then front[j] else mid[j - |front|];
    assert FailsFirst(all, |front| + i, why);
  }

  lemma HoldTogether(front: seq<Check>, mid: seq<Check>, back: seq<Check>)
    requires AllHold(front) && AllHold(mid) && AllHold(back)
    ensures AllHold(front + mid + back)
  {
  }

  /** A create is refused for the first check that fails, and otherwise makes exactly the job that was asked for. */
  lemma CreateIsExact(lib: CronLib, caller: App, req: CreateReq, uuid: Uuid, env: Standing, now: Instant)
    ensures Follows(CreateChecks(lib, req, env, now), PlanCreate(lib, caller, req, uuid, env, now))
    ensures PlanCreate(lib, caller, req, uuid, env, now).Fine? ==>
              IsAskedFor(lib, caller, req, uuid, now, PlanCreate(lib, caller, req, uuid, env, now).value)
  {
    var r := PlanCreate(lib, caller, req, uuid, env, now);
    var front := SenderChecks(req, env);
    var mid := TriggerChecks(lib, req.trigger, now);
    var back := [Check(env.actionAllowed, InvalidAction)];
    EmptyNameHasNoBytes(req.name);
    assert AllHold(front) <==> front[0].holds && front[1].holds && front[2].holds;
    TriggerIsChecked(lib, req.trigger, now);
    ComputeNextIsLeast(lib, req.trigger, now);
    if !AllHold(front) {
      FrontFails(front, mid + back, r);
      assert front + (mid + back) == front + mid + back;
    } else if ValidateCron(lib, req.trigger, now).Some? {
      FailsInside(front, mid, back, r.why);
    } else if !env.actionAllowed {
      assert FailsFirst(back, 0, InvalidAction);
      FailsInside(front + mid, back, [], r.why);
      assert front + mid + back + [] == front + mid + back;
    } else {
      HoldTogether(front, mid, back);
    }
  }

  lemma FrontFails<T>(front: seq<Check>, rest: seq<Check>, r: Result<T>)
    requires |front| == 3 && r.Refused? && !AllHold(front)
    requires r.why == if !front[0].holds then front[0].otherwise else if !front[1].holds then front[1].otherwise else front[2].otherwise
    ensures Follows(front + rest, r)
  {
    var i: nat := if !front[0].holds then 0 else if !front[1].holds then 1 else 2;
    assert FailsFirst(front + rest, i, r.why);
  }

  /** The job that a create asks for: fresh, and due at the least occurrence after now. */
  ghost predicate IsAskedFor(lib: CronLib, caller: App, req: CreateReq, uuid: Uuid, now: Instant, row: Job) {
    && row.uuid == uuid && row.owner == caller
    && row.name == req.name && row.trigger == req.trigger && row.action == req.action && row.enabled == req.enabled
    && row.createdAt == now / 1_000_000_000 && row.updatedAt == now / 1_000_000_000
    && row.failures == 0 && row.lastFired == None && row.autoDisabledAt == None
    && IsOccurrence(lib, req.trigger, row.nextFire) && now < FromDb(row.nextFire)
    && NoneBetween(lib, req.trigger, now, FromDb(row.nextFire))
  }

  // ---------------------------------------------------------------------------
  // Edits
  // ---------------------------------------------------------------------------

  /** The new trigger has an occurrence that is ahead of now and of the last fire. */
  ghost predicate HasSlotAhead(lib: CronLib, was: Job, trigger: Trigger, now: Instant) {
    exists n :: IsAhead(lib, was, trigger, now, n)
  }

  predicate IsAhead(lib: CronLib, was: Job, trigger: Trigger, now: Instant, n: Stamp) {
    IsOccurrence(lib, trigger, n) && now < FromDb(n) && (was.lastFired.Some? ==> was.lastFired.value < n)
  }

  /** The caller owns the job and is still known, with a user; a new name is good. */
  ghost function OwnerChecks(caller: App, was: Job, req: EditReq, env: Standing): seq<Check> {
    [Check(was.owner == caller && env.known && env.hasUsers, Forbidden),
     Check(req.name.Some? ==> HasGoodName(req.name.value), InvalidName)]
  }

  /** A new trigger is good, and has a slot ahead. */
  ghost function SlotChecks(lib: CronLib, was: Job, req: EditReq, now: Instant): seq<Check> {
    if req.trigger.None? then []
    else TriggerChecks(lib, req.trigger.value, now)
         + [Check(HasSlotAhead(lib, was, req.trigger.value, now), InvalidCron(NeverMatches))]
  }

  /** The app may publish, and a new action is allowed. */
  ghost function ActionChecks(req: EditReq, env: Standing): seq<Check> {
    [Check(env.hasGrant, Unauthorized), Check(req.action.Some? ==> env.actionAllowed, InvalidAction)]
  }

  ghost function EditChecks(lib: CronLib, caller: App, was: Job, req: EditReq, env: Standing, now: Instant): seq<Check> {
    OwnerChecks(caller, was, req, env) + SlotChecks(lib, was, req, now) + ActionChecks(req, env)
  }

  lemma AnchorIsAhead(lib: CronLib, was: Job, trigger: Trigger, now: Instant)
    ensures forall n :: IsOccurrence(lib, trigger, n) && EditAnchor(was, now) < FromDb(n) <==> IsAhead(lib, was, trigger, now, n)
  {
  }

  lemma SlotIsChecked(lib: CronLib, was: Job, req: EditReq, now: Instant)
    ensures Follows(SlotChecks(lib, was, req, now), PlanSchedule(lib, was, req, now))
  {
    if req.trigger.Some? {
      var trigger := req.trigger.value;
      var mid := TriggerChecks(lib, trigger, now);
      var last := Check(HasSlotAhead(lib, was, trigger, now), InvalidCron(NeverMatches));
      TriggerIsChecked(lib, trigger, now);
      ComputeNextIsLeast(lib, trigger, EditAnchor(was, now));
      AnchorIsAhead(lib, was, trigger, now);
      assert [] + mid + [last] == mid + [last];
      if ValidateCron(lib, trigger, now).Some? {
        FailsInside([], mid, [last], InvalidCron(ValidateCron(lib, trigger, now).value));
      } else if ComputeNext(lib, trigger, EditAnchor(was, now)).None? {
        assert FailsFirst(mid + [last], 4, InvalidCron(NeverMatches));
      } else {
        assert IsAhead(lib, was, trigger, now, ComputeNext(lib, trigger, EditAnchor(was, now)).value);
      }
    }
  }

  /** An edit is refused for the first check that fails. */
  lemma EditIsChecked(lib: CronLib, caller: App, was: Job, req: EditReq, env: Standing, now: Instant)
    ensures Follows(EditChecks(lib, caller, was, req, env, now), PlanEdit(lib, caller, was, req, env, now))
  {
    var r := PlanEdit(lib, caller, was, req, env, now);
    var front, mid, back := OwnerChecks(caller, was, req, env), SlotChecks(lib, was, req, now), ActionChecks(req, env);
    SlotIsChecked(lib, was, req, now);
    if req.name.Some? {
      EmptyNameHasNoBytes(req.name.value);
    }
    assert AllHold(front) <==> front[0].holds && front[1].holds;
    assert AllHold(back) <==> back[0].holds && back[1].holds;
    if !AllHold(front) {
      assert FailsFirst(front, if front[0].holds then 1 else 0, r.why);
      FailsInside([], front, mid + back, r.why);
      assert [] + front + (mid + back) == front + mid + back;
    } else if PlanSchedule(lib, was, req, now).Refused? {
      FailsInside(front, mid, back, r.why);
    } else if !AllHold(back) {
      assert FailsFirst(back, if back[0].holds then 1 else 0, r.why);
      HoldTogether(front, mid, []);
      FailsInside(front + mid + [], back, [], r.why);
      assert front + mid + [] + back + [] == front + mid + back;
    } else {
      HoldTogether(front, mid, back);
    }
  }

  /** What an edit makes of a job: what the request names, and nothing else. */
  ghost predicate IsEdited(lib: CronLib, was: Job, req: EditReq, now: Instant, row: Job) {
    && row.uuid == was.uuid && row.owner == was.owner && row.createdAt == was.createdAt && row.lastFired == was.lastFired
    && row.updatedAt == now / 1_000_000_000
    && row.name == (if req.name.Some? then req.name.value else was.name)
    && row.action == (if req.action.Some? then req.action.value else was.action)
    && row.trigger == (if req.trigger.Some? then req.trigger.value else was.trigger)
    && row.enabled == (if req.enabled.Some? then req.enabled.value else was.enabled)
    && (req.trigger.None? ==> row.nextFire == was.nextFire)
    && (req.trigger.Some? ==>
          && IsAhead(lib, was, row.trigger, now, row.nextFire)
          && forall n | IsAhead(lib, was, row.trigger, now, n) :: row.nextFire <= n)
    && row.failures == (if row.enabled && !was.enabled then 0 else was.failures)
    && row.autoDisabledAt == (if row.enabled && !was.enabled then None else was.autoDisabledAt)
  }

  lemma EditIsExact(lib: CronLib, caller: App, was: Job, req: EditReq, env: Standing, now: Instant)
    requires PlanEdit(lib, caller, was, req, env, now).Fine?
    ensures IsEdited(lib, was, req, now, EditedRow(was, PlanEdit(lib, caller, was, req, env, now).value))
  {
    if req.trigger.Some? {
      var trigger := req.trigger.value;
      ComputeNextIsLeast(lib, trigger, EditAnchor(was, now));
      AnchorIsAhead(lib, was, trigger, now);
      var next := ComputeNext(lib, trigger, EditAnchor(was, now)).value;
      forall n | IsAhead(lib, was, trigger, now, n)
        ensures next <= n
      {
        assert n < next ==> FromDb(n) < FromDb(next);
      }
    }
  }
}
