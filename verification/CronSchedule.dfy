/**
 Cron triggers. The cron and time-zone libraries are an oracle with a stated contract; the search for the
 next occurrence is the program's own.
 */
module CronSchedule {
  import opened Options

  const NANOS := 1_000_000_000

  /** A moment on the clock, in nanoseconds. */
  type Instant = int

  /** A moment as the database stores it, in whole seconds. */
  type Stamp = int

  /** Formatting for the database drops the fraction of a second. */
  function ToDb(t: Instant): Stamp {
    t / NANOS
  }

  function FromDb(s: Stamp): Instant {
    s * NANOS
  }

  /**
   One parsed expression in one time zone. `find` is the library's search; `candidate` says which instants it
   can return, some of them only because a nonexistent local time was snapped forward; `matches` says
   whether an instant's local time is one the expression names.
   */
  datatype RawSchedule = RawSchedule(
    candidate: Instant -> bool,
    matches: Instant -> bool,
    find: Instant -> Option<Instant>,
    horizon: Instant)

  /** `find` returns the least candidate strictly after a moment; candidates are whole seconds up to a horizon. */
  ghost predicate Contract(s: RawSchedule) {
    && (forall t {:trigger s.candidate(t)} :: s.candidate(t) ==> t <= s.horizon && FromDb(ToDb(t)) == t)
    && (forall after {:trigger s.find(after)} :: IsLeastAfter(s.candidate, after, s.find(after)))
  }

  /** `r` is the least instant after `after` that satisfies `p`, or None when there is none. */
  ghost predicate IsLeastAfter(p: Instant -> bool, after: Instant, r: Option<Instant>) {
    match r
    case None => forall t | after < t :: !p(t)
    case Some(c) => after < c && p(c) && forall t | after < t < c :: !p(t)
  }

  ghost const NEVER := RawSchedule(_ => false, _ => false, _ => None, 0)

  type Schedule = s: RawSchedule | Contract(s) ghost witness NEVER

  /** A genuine occurrence: a candidate whose local time the expression names. */
  predicate Occurs(s: Schedule, t: Instant) {
    s.candidate(t) && s.matches(t)
  }

  /**
   The search: take the library's candidate, and go on from there while it is an artefact of a clock change.
   The result is the least genuine occurrence strictly after `after`: no number of artefacts hides one.
   */
  function ComputeNextInner(s: Schedule, after: Instant): (r: Option<Instant>)
    ensures r.Some? ==> after < r.value && Occurs(s, r.value)
    ensures r.Some? ==> forall t | after < t < r.value :: !Occurs(s, t)
    ensures r.None? ==> forall t | after < t :: !Occurs(s, t)
    decreases if after < s.horizon then s.horizon - after else 0
  {
    match s.find(after)
    case None => None
    case Some(candidate) =>
      if s.matches(candidate) then Some(candidate)
      else if candidate > after then ComputeNextInner(s, candidate)
      else None
  }

  // ---------------------------------------------------------------------------
  // Triggers
  // ---------------------------------------------------------------------------

  datatype Trigger = Trigger(expr: string, tz: string, persistent: bool)

  /** The cron and time-zone libraries. */
  datatype CronLib = CronLib(
    fieldCount: string -> nat,
    parses: string -> bool,
    knownZone: string -> bool,
    schedule: (string, string) -> Schedule)

  datatype CronError = WrongFieldCount(got: nat) | ParseError | InvalidTimezone | NeverMatches

  /** `n` is an occurrence of the trigger. */
  predicate IsOccurrence(lib: CronLib, trigger: Trigger, n: Stamp) {
    && lib.knownZone(trigger.tz) && lib.parses(trigger.expr)
    && Occurs(lib.schedule(trigger.expr, trigger.tz), FromDb(n))
  }

  function ComputeNext(lib: CronLib, trigger: Trigger, after: Instant): (r: Option<Stamp>)
  {
    if !lib.knownZone(trigger.tz) then None
    else if !lib.parses(trigger.expr) then None
    else
      match ComputeNextInner(lib.schedule(trigger.expr, trigger.tz), after)
      case None => None
      case Some(t) => Some(ToDb(t))
  }

  /** There is no occurrence of the trigger after `lo` and before `hi`. */
  ghost predicate NoneBetween(lib: CronLib, trigger: Trigger, lo: Instant, hi: Instant) {
    forall n | lo < FromDb(n) < hi :: !IsOccurrence(lib, trigger, n)
  }

  ghost predicate NoneAfter(lib: CronLib, trigger: Trigger, lo: Instant) {
    forall n | lo < FromDb(n) :: !IsOccurrence(lib, trigger, n)
  }

  /** The next fire time is the least occurrence strictly after `after`; None exactly when there is none. */
  lemma ComputeNextIsLeast(lib: CronLib, trigger: Trigger, after: Instant)
    ensures var r := ComputeNext(lib, trigger, after);
            && (r.None? <==> NoneAfter(lib, trigger, after))
            && (r.Some? ==>
                  && after < FromDb(r.value) && IsOccurrence(lib, trigger, r.value)
                  && NoneBetween(lib, trigger, after, FromDb(r.value)))
  {
    if lib.knownZone(trigger.tz) && lib.parses(trigger.expr) {
      var s := lib.schedule(trigger.expr, trigger.tz);
      var t := ComputeNextInner(s, after);
      if t.Some? {
        assert s.candidate(t.value);
        assert FromDb(ToDb(t.value)) == t.value;
        assert IsOccurrence(lib, trigger, ToDb(t.value));
      }
    }
  }

  /** Validation at create and edit time, in the order the checks are made. */
  function ValidateCron(lib: CronLib, trigger: Trigger, now: Instant): Option<CronError> {
    if lib.fieldCount(trigger.expr) != 5 then Some(WrongFieldCount(lib.fieldCount(trigger.expr)))
    else if !lib.parses(trigger.expr) then Some(ParseError)
    else if trigger.tz == "" then Some(InvalidTimezone)
    else if !lib.knownZone(trigger.tz) then Some(InvalidTimezone)
    else if ComputeNextInner(lib.schedule(trigger.expr, trigger.tz), now).None? then Some(NeverMatches)
    else None
  }
}
