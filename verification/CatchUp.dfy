/** The startup pass over jobs that came due while the program was down. */
module CatchUp {
  import opened Options
  import opened CronSchedule
  import opened JobTables

  const MAX_CATCHUP_DAYS := 90

  /** Whole days in a duration, truncated toward zero. */
  function WholeDays(d: int): int {
    if d >= 0 then d / DAY else -((-d) / DAY)
  }

  /** More than 90 whole days is 91 days or more. */
  lemma GapInDays(d: int)
    ensures WholeDays(d) > MAX_CATCHUP_DAYS <==> d >= 91 * DAY
  {
  }

  /** The last occurrence after `cursor` and up to `now`, found by stepping from one to the next. */
  function LastUpTo(lib: CronLib, trigger: Trigger, cursor: Instant, now: Instant): Option<Stamp>
    decreases if cursor < now then now - cursor else 0
  {
    ComputeNextIsLeast(lib, trigger, cursor);
    match ComputeNext(lib, trigger, cursor)
    case None => None
    case Some(n) =>
      if FromDb(n) > now then None
      else
        var later := LastUpTo(lib, trigger, FromDb(n), now);
        if later.Some? then later else Some(n)
  }

  /** The walk gives up on a gap of more than 90 whole days. */
  function MostRecentPast(lib: CronLib, trigger: Trigger, anchor: Instant, now: Instant): Option<Stamp> {
    if WholeDays(now - anchor) > MAX_CATCHUP_DAYS then None else LastUpTo(lib, trigger, anchor, now)
  }

  /** `r` is the greatest occurrence in (lo, now], or None when there is none. */
  ghost predicate IsGreatestUpTo(lib: CronLib, trigger: Trigger, lo: Instant, now: Instant, r: Option<Stamp>) {
    match r
    case None => NoneBetween(lib, trigger, lo, now + 1)
    case Some(n) => lo < FromDb(n) <= now && IsOccurrence(lib, trigger, n) && NoneBetween(lib, trigger, FromDb(n), now + 1)
  }

  lemma {:induction false} LastUpToIsGreatest(lib: CronLib, trigger: Trigger, cursor: Instant, now: Instant)
    ensures IsGreatestUpTo(lib, trigger, cursor, now, LastUpTo(lib, trigger, cursor, now))
    decreases if cursor < now then now - cursor else 0
  {
    ComputeNextIsLeast(lib, trigger, cursor);
    var n := ComputeNext(lib, trigger, cursor);
    if n.Some? && FromDb(n.value) <= now {
      LastUpToIsGreatest(lib, trigger, FromDb(n.value), now);
    }
  }

  /** The walking loop returns the greatest missed occurrence, unless the gap is longer than 90 days. */
  method WalkToMostRecentPast(lib: CronLib, trigger: Trigger, anchor: Instant, now: Instant) returns (last: Option<Stamp>)
    ensures last == MostRecentPast(lib, trigger, anchor, now)
    ensures now - anchor < 91 * DAY ==> IsGreatestUpTo(lib, trigger, anchor, now, last)
    ensures now - anchor >= 91 * DAY ==> last == None
  {
    GapInDays(now - anchor);
    last := None;
    var cursor := anchor;
    if WholeDays(now - anchor) > MAX_CATCHUP_DAYS {
      return;
    }
    LastUpToIsGreatest(lib, trigger, anchor, now);
    while true
      invariant last == None ==> cursor == anchor
      invariant last.Some? ==> cursor == FromDb(last.value) <= now
      invariant LastUpTo(lib, trigger, anchor, now) ==
                (var later := LastUpTo(lib, trigger, cursor, now); if later.Some? then later else last)
      decreases if cursor < now then now - cursor else 0
    {
      ComputeNextIsLeast(lib, trigger, cursor);
      var next := ComputeNext(lib, trigger, cursor);
      if next.None? || FromDb(next.value) > now {
        break;
      }
      last := next;
      cursor := FromDb(next.value);
    }
  }

  // ---------------------------------------------------------------------------
  // The pass
  // ---------------------------------------------------------------------------

  /** Where the walk starts: the last fire, or the creation of the job. */
  function Anchor(job: Job): Stamp {
    if job.lastFired.Some? then job.lastFired.value else job.createdAt
  }

  /** A due, non-persistent job after the pass: advanced without firing, or disabled when it will never fire again. */
  function CaughtUpRow(lib: CronLib, row: Job, read: Job, now: Instant): Job {
    match ComputeNext(lib, read.trigger, now)
    case None => DisabledRow(row, now)
    case Some(next) =>
      row.(lastFired := MostRecentPast(lib, read.trigger, FromDb(Anchor(read)), now),
           nextFire := next, updatedAt := ToDb(now))
  }

  /** One due job. A persistent one is left for the scheduler, which will fire it once. */
  function CatchUpOne(lib: CronLib, tb: Tables, snap: Snapshot, now: Instant): Tables {
    if snap.job.trigger.persistent || snap.id !in tb.jobs then tb
    else
      Tables(tb.jobs[snap.id := CaughtUpRow(lib, tb.jobs[snap.id], snap.job, now)],
             if ComputeNext(lib, snap.job.trigger, now).None? then tb.fires + [Fire(snap.id, ToDb(now), ActionError)]
             else tb.fires)
  }

  function CatchUpAll(lib: CronLib, tb: Tables, due: seq<Snapshot>, now: Instant): Tables
    decreases |due|
  {
    if due == [] then tb else CatchUpAll(lib, CatchUpOne(lib, tb, due[0], now), due[1..], now)
  }

  /** Rows that catch-up has not reached yet are as the list of due jobs has them. */
  ghost predicate Pending(tb: Tables, due: seq<Snapshot>) {
    && (forall i | 0 <= i < |due| :: due[i].id in tb.jobs && tb.jobs[due[i].id] == due[i].job)
    && (forall i, j | 0 <= i < j < |due| :: due[i].id != due[j].id)
  }

  /** The row of a due list entry after catch-up, and every other row. */
  lemma {:induction false} CatchUpRows(lib: CronLib, tb: Tables, due: seq<Snapshot>, now: Instant, id: RowId)
    requires Pending(tb, due) && id in tb.jobs
    ensures id in CatchUpAll(lib, tb, due, now).jobs
    ensures var row, after := tb.jobs[id], CatchUpAll(lib, tb, due, now).jobs[id];
            if Snapshot(id, row) in due && !row.trigger.persistent then after == CaughtUpRow(lib, row, row, now)
            else after == row
    decreases |due|
  {
    if due != [] {
      var next := CatchUpOne(lib, tb, due[0], now);
      var rest := due[1..];
      assert forall i | 0 <= i < |rest| :: rest[i] == due[i + 1];
      CatchUpRows(lib, next, rest, now, id);
      if due[0].id == id {
        assert forall i | 0 <= i < |rest| :: rest[i].id != id;
      }
    }
  }

  /** The rows the pass adds to the fire log: one for each due, non-persistent job that will never fire again. */
  function AddedFires(lib: CronLib, due: seq<Snapshot>, now: Instant): seq<Fire> {
    if due == [] then [] else AddedFor(lib, due[0], now) + AddedFires(lib, due[1..], now)
  }

  function AddedFor(lib: CronLib, snap: Snapshot, now: Instant): seq<Fire> {
    if !snap.job.trigger.persistent && ComputeNext(lib, snap.job.trigger, now).None?
    then [Fire(snap.id, ToDb(now), ActionError)] else []
  }

  lemma {:induction false} CatchUpLog(lib: CronLib, tb: Tables, due: seq<Snapshot>, now: Instant)
    requires Pending(tb, due)
    ensures CatchUpAll(lib, tb, due, now).fires == tb.fires + AddedFires(lib, due, now)
    decreases |due|
  {
    if due != [] {
      var next := CatchUpOne(lib, tb, due[0], now);
      RestIsPending(lib, tb, due, now);
      CatchUpLog(lib, next, due[1..], now);
      assert next.fires == tb.fires + AddedFor(lib, due[0], now);
      Regroup(tb.fires, AddedFor(lib, due[0], now), AddedFires(lib, due[1..], now));
    }
  }

  lemma RestIsPending(lib: CronLib, tb: Tables, due: seq<Snapshot>, now: Instant)
    requires due != [] && Pending(tb, due)
    ensures Pending(CatchUpOne(lib, tb, due[0], now), due[1..])
  {
    assert forall i | 0 <= i < |due[1..]| :: due[1..][i] == due[i + 1];
  }

  lemma Regroup(a: seq<Fire>, b: seq<Fire>, c: seq<Fire>)
    ensures (a + b) + c == a + (b + c)
  {
  }

  /** A due job that is not persistent and still has occurrences: moved past `now` without firing. */
  ghost predicate IsAdvanced(lib: CronLib, row: Job, after: Job, now: Instant) {
    && after == row.(lastFired := after.lastFired, nextFire := after.nextFire, updatedAt := ToDb(now))
    && now < FromDb(after.nextFire) && IsOccurrence(lib, row.trigger, after.nextFire)
    && NoneBetween(lib, row.trigger, now, FromDb(after.nextFire))
    && (var from := (if row.lastFired.Some? then row.lastFired.value else row.createdAt) * 1_000_000_000;
        if now - from < 91 * 86_400_000_000_000 then IsGreatestUpTo(lib, row.trigger, from, now, after.lastFired)
        else after.lastFired == None)
  }

  /** The rows of one job, in order. */
  function RowsOf(fires: seq<Fire>, id: RowId): seq<Fire> {
    if fires == [] then []
    else (if fires[0].job == id then [fires[0]] else []) + RowsOf(fires[1..], id)
  }

  lemma {:induction false} RowsOfConcat(a: seq<Fire>, b: seq<Fire>, id: RowId)
    ensures RowsOf(a + b, id) == RowsOf(a, id) + RowsOf(b, id)
  {
    if a == [] {
      assert a + b == b;
    } else {
      assert (a + b)[1..] == a[1..] + b;
      RowsOfConcat(a[1..], b, id);
      Regroup(if a[0].job == id then [a[0]] else [], RowsOf(a[1..], id), RowsOf(b, id));
    }
  }

  /** The rows added for a job: those added for its entry in the list, if it has one. */
  lemma {:induction false} RowsAdded(lib: CronLib, due: seq<Snapshot>, now: Instant, id: RowId)
    requires forall i, j | 0 <= i < j < |due| :: due[i].id != due[j].id
    ensures (forall i | 0 <= i < |due| :: due[i].id != id) ==> RowsOf(AddedFires(lib, due, now), id) == []
    ensures forall i | 0 <= i < |due| && due[i].id == id :: RowsOf(AddedFires(lib, due, now), id) == AddedFor(lib, due[i], now)
    decreases |due|
  {
    if due != [] {
      var rest := due[1..];
      assert forall i | 0 <= i < |rest| :: rest[i] == due[i + 1];
      RowsAdded(lib, rest, now, id);
      RowsOfConcat(AddedFor(lib, due[0], now), AddedFires(lib, rest, now), id);
      RowsForOne(lib, due[0], now, id);
    }
  }

  lemma RowsForOne(lib: CronLib, snap: Snapshot, now: Instant, id: RowId)
    ensures RowsOf(AddedFor(lib, snap, now), id) == if snap.id == id then AddedFor(lib, snap, now) else []
  {
    var one := AddedFor(lib, snap, now);
    if one != [] {
      assert one[1..] == [] && one == [one[0]];
    }
  }

  /** The job was due, is not persistent, and will never fire again. */
  ghost predicate RunsOut(lib: CronLib, row: Job, scanned: Instant, now: Instant) {
    IsDue(row, scanned) && !row.trigger.persistent && NoneAfter(lib, row.trigger, now)
  }

  /**
   What the pass does to each job: a job that is not due, or is persistent, is left as it is; another is advanced, its
   last fire becoming the greatest missed occurrence, or none after a gap of more than 90 days, its next fire
   the least occurrence after now, with nothing logged; one that will never fire again is disabled, with one row logged.
   */
  lemma CatchUpRefines(lib: CronLib, tb: Tables, due: seq<Snapshot>, now: Instant, scanned: Instant, id: RowId)
    requires IsDueList(tb.jobs, scanned, due) && id in tb.jobs
    ensures var row, tb' := tb.jobs[id], CatchUpAll(lib, tb, due, now);
            && id in tb'.jobs
            && (!IsDue(row, scanned) || row.trigger.persistent ==> tb'.jobs[id] == row)
            && (RunsOut(lib, row, scanned, now) ==> IsStopped(row, now, tb'.jobs[id]))
            && (IsDue(row, scanned) && !row.trigger.persistent && !NoneAfter(lib, row.trigger, now) ==>
                  IsAdvanced(lib, row, tb'.jobs[id], now))
            && RowsOf(tb'.fires, id) ==
               RowsOf(tb.fires, id) + if RunsOut(lib, row, scanned, now) then [Fire(id, now / 1_000_000_000, ActionError)] else []
  {
    var row := tb.jobs[id];
    CatchUpRows(lib, tb, due, now, id);
    ComputeNextIsLeast(lib, row.trigger, now);
    if ComputeNext(lib, row.trigger, now).Some? {
      CaughtUpIsAdvanced(lib, row, now);
    }
    CatchUpLogOf(lib, tb, due, now, scanned, id);
  }

  lemma CatchUpLogOf(lib: CronLib, tb: Tables, due: seq<Snapshot>, now: Instant, scanned: Instant, id: RowId)
    requires IsDueList(tb.jobs, scanned, due) && id in tb.jobs
    ensures RowsOf(CatchUpAll(lib, tb, due, now).fires, id) ==
            RowsOf(tb.fires, id) + if RunsOut(lib, tb.jobs[id], scanned, now) then [Fire(id, now / 1_000_000_000, ActionError)] else []
  {
    var row := tb.jobs[id];
    CatchUpLog(lib, tb, due, now);
    RowsOfConcat(tb.fires, AddedFires(lib, due, now), id);
    RowsAdded(lib, due, now, id);
    ComputeNextIsLeast(lib, row.trigger, now);
    if IsDue(row, scanned) {
      assert Snapshot(id, row) in due;
      var i :| 0 <= i < |due| && due[i] == Snapshot(id, row);
      assert RowsOf(AddedFires(lib, due, now), id) == AddedFor(lib, due[i], now);
    } else {
      assert forall i | 0 <= i < |due| :: due[i].id != id;
    }
  }

  lemma CaughtUpIsAdvanced(lib: CronLib, row: Job, now: Instant)
    requires ComputeNext(lib, row.trigger, now).Some?
    ensures IsAdvanced(lib, row, CaughtUpRow(lib, row, row, now), now)
  {
    ComputeNextIsLeast(lib, row.trigger, now);
    LastUpToIsGreatest(lib, row.trigger, FromDb(Anchor(row)), now);
    GapInDays(now - FromDb(Anchor(row)));
  }
}
