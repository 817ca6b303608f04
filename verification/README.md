# Verification of brenn's command approval, automation engine and activation gate

Three parts of brenn, modelled in Dafny and proved over every input and every run.

**Command approval** (`brenn-approval-rules`). An approval check splits a Bash command line at its unquoted
separators and approves it only when every command is matched by a rule. The splitter is a one-pass scan over bytes
with three quote states and one byte of lookahead. `ShellLexer` is the reference: a recursive lexer for the quoting
of section 2.2 of the POSIX.1-2017 Shell Command Language and the separators of its sections 2.9.2 and 2.9.3.
`Quoting` says the same of each byte by its position, without a lexer: what is quoted, escaped, a separator, forbidden.
`CommandSplit` is the scan as the program runs it, proved equal to both; `SplitTheorems` proves what splitting means;
`ApprovalRules` builds the check on top and proves its verdict from the positions of the rules. Text is bytes, with UTF-8 as in sections 3 and 4 of
RFC 3629 and Unicode white space for trimming.

**The automation engine** (`brenn-automation`). `CronSchedule`, `JobTables` and `CatchUp` are its values and
statements; `AutomationStore` and `StartupChecks` are the statements as the program issues them. `Scheduler` is the
engine as a state machine. One step is what happens under one hold of the database lock, together with the clock
reading taken for it; the clock never goes back. A create is one step. An edit or a delete is two: one reads the row
and checks ownership, the other writes. The scheduler scans for due jobs, then fires the snapshots one at a time, in
three steps each: gate, report decision, bookkeeping. The process can stop at any point and start again; before its
first scan it disables orphans and catches up. Calls of any number of apps interleave with all of that. The exception
is the startup pass over due jobs, which is one step although the program takes the lock once per job. `RequestChecks`
and `LimiterDecisions` say what each request and each decision of the limiters comes to, field by field and row by row.

**Activation** (`brenn-activation` and its host on the page, `surface/kernel`). `ActivationGate` is the shared
gate, `SurfaceSchedules` the page's table with its round-robin pick, `SurfacePage` the page as a state machine, and
`PageLifecycle` what its tables mean in terms of the events of a run.

## What turned out not to hold

Each of these has a run that shows it (`KnownGaps`, `RoundRobin`) and a proved condition under which it does not happen.
Where the text says "exactly" or "if and only if", both directions are proved.

- The fire cap can be exceeded. Deleting a job deletes its log, so a job deleted between scan and gate passes the gate on
  an empty log, once. A crash between gate and bookkeeping keeps a fire out of the log. Some hour exceeds the cap if and
  only if the gate let a fire through in one of these two ways when the hour before was already full
  (`CapIsExceededExactly`); a run without either stays within the cap (`CapIsExact`).
- The report cap can be exceeded by one, by a report that is booked on the row of another job. This takes a job that is
  deleted while it is about to fire, and another created under its row id before the bookkeeping. A report exceeds the
  cap if and only if it is such a one and finds the hour already full (`ReportCapIsExceededExactly`).
- Row ids are used again after a delete, so a fire can be booked on a job that never fired. A row id changes hands under a
  job that is about to be fired exactly when a create takes it (`StepTakeover`); on a run without that, every fire is
  booked on its own job's row (`FiresLandAtHome`).
- A fire whose trigger has run out logs a row even if its job has been deleted. The foreign key refuses the row and the
  scheduler panics. `StepSurvives` says exactly which deletes and which fires lead there.
- An edit that was read before a fire and written after it puts back the old fire time, so a slot fires twice, and the
  old enabled flag, so a job that was disabled automatically is enabled again. `StepSchedule` and `StepFair` say exactly
  which writes do that.
- A slot can fire twice without an edit. Two consecutive fires of a job are of one slot if and only if the job is
  persistent and the first was lost to a crash in the middle; a job that is not persistent is moved past its lost slot
  when the process catches up (`SlotRepeatsExactly`).
- A call moves the page's rotation, so calls can keep a ready instance waiting for ever. Those served come round towards a
  waiting instance if and only if no call passes it (`RotationIsExact`).

The documentation of the caps in `brenn-lib/src/config/automation.rs` and of the rotation in
`surface/kernel/src/activation.rs` has no such conditions; the model follows the code.

## Model

| member | source | states |
|---|---|---|
| `CommandSplit.SplitBashCommand` | brenn-approval-rules/src/lib.rs:330-495 | the one-pass program returns, for every byte string, what the recursive lexer says, and what the positions say: cut exactly at the operators that stand unquoted and unescaped; unparseable exactly when forbidden text stands where it counts, a quote is open, a backslash is last, or all pieces are blank |
| `Quoting.ReadableExactly` | brenn-approval-rules/src/lib.rs:346-460 | a command can be read if and only if no position holds forbidden text and the end is neither quoted nor escaped, and its separators are exactly the positions that are unquoted, unescaped, not the second byte of a pair, and hold an operator |
| `Quoting.HeadByPosition` | brenn-approval-rules/src/lib.rs:349-429 | at every position that starts a token, the lexer's next token is the one that stands there by position, separator or not, and it rejects only where no continuation can be read |
| `CommandSplit.SplitByPosition` | brenn-approval-rules/src/lib.rs:330-495 | the same of the recursive split: its pieces are the text between those positions, trimmed, without the blank ones |
| `CommandSplit.ScanSplits` | brenn-approval-rules/src/lib.rs:342-460 | the loop's split points are exactly the separators that the lexer reads as unquoted and unescaped, in order, and it gives up exactly when the lexer does |
| `CommandSplit.ScanToken` | brenn-approval-rules/src/lib.rs:349-429 | each branch on an unquoted byte consumes exactly the lexer's next token and agrees whether it separates; the token itself is given by position in `Quoting.HeadByPosition` |
| `CommandSplit.ExtractCommands` | brenn-approval-rules/src/lib.rs:466-483 | the second pass cuts at the split points, trims, and drops blank pieces, for any split points in order |
| `CommandSplit.SplitPointsAreSound` | brenn-approval-rules/src/lib.rs:342-477 | split points increase, separators do not overlap, every slice is in range, and the slices are the lexer's raw pieces |
| `ShellLexer.LexIsLossless` | brenn-approval-rules/src/lib.rs:346-455 | the tokens of a command, concatenated, are the command |
| `ShellLexer.SeparatorsAreOperators` | brenn-approval-rules/src/lib.rs:387-427 | whatever is read as a separator is one of the seven operators |
| `ShellLexer.LexOperator` | brenn-approval-rules/src/lib.rs:387-427 | each of the seven operators is read as a separator in front of any text whose first byte does not change it |
| `ShellLexer.LexAppend` | brenn-approval-rules/src/lib.rs:346-455 | reading is compositional: text behind a command is read as on its own, when its first byte leaves the command's last token as it is |
| `SplitTheorems.SplittingIsLossless` | brenn-approval-rules/src/lib.rs:342-483 | raw pieces interleaved with their separators rebuild the command byte for byte |
| `SplitTheorems.RawPiecesAreStable` | brenn-approval-rules/src/lib.rs:346-476 | every untrimmed piece, split again, is one simple command: no separator, no open quote, no refusal, though its lookahead now ends |
| `SplitTheorems.JoinIsCompositional` | brenn-approval-rules/src/lib.rs:330-495 | the commands of two texts joined by a separator are the commands of the first followed by those of the second; with any blanks around it, or none on a side where it and the text do not lengthen each other |
| `SplitTheorems.PartsIsExact` | brenn-approval-rules/src/lib.rs:366-427 | that condition is exact: a separator between two texts is read as itself, and they as they are alone, if and only if it holds |
| `SplitTheorems.SplitOfJoin` | brenn-approval-rules/src/lib.rs:485-494 | two non-blank commands joined so are always reported as compound, with both lists of commands |
| `SplitTheorems.SplitUndoesJoin` | brenn-approval-rules/src/lib.rs:1535-1564 | any list of simple commands, joined so by any separators, is recovered by splitting |
| `SplitTheorems.SubstitutionIsRefused` | brenn-approval-rules/src/lib.rs:359-374 | a backtick, a parenthesis or a here-document that stands unquoted anywhere makes the whole command unparseable |
| `SplitTheorems.QuotedSubstitutionIsRefused` | brenn-approval-rules/src/lib.rs:437-452 | double quotes do not protect a command substitution: a backtick or a dollar with a parenthesis inside an open region makes the whole command unparseable |
| `SplitTheorems.RedirectsAreWords` | brenn-approval-rules/src/lib.rs:350-400 | the ampersand or bar of a redirection, and any escaped byte, is part of a word, whatever follows |
| `SplitTheorems.QuotedTextIsOpaque` | brenn-approval-rules/src/lib.rs:431-436 | replacing the text inside a single-quoted region changes neither parseability nor the number of commands nor any command around it |
| `SplitTheorems.SplittingIsUtf8Safe` | brenn-approval-rules/src/lib.rs:466-477 | on well-formed UTF-8 every cut is at a character boundary and every piece, before and after trimming, is well-formed |
| `Text.TrimStripsBlanks` | brenn-approval-rules/src/lib.rs:470-482 | trimming removes blanks only, from both ends, and leaves none at either end |
| `Text.BlanksAreWhiteSpace` | brenn-approval-rules/src/lib.rs:470-482 | what is trimmed in front and behind is a code point with the Unicode property White_Space, and nothing else |
| `Text.EncodedLengthIsExact` | brenn-approval-rules/src/lib.rs:101-107 | the length that limits count is that of the UTF-8 encoding, which is well-formed |
| `ApprovalRules.ApprovalRuleSet.CheckSingle` | brenn-approval-rules/src/lib.rs:268-287 | the loops report the earliest matching static rule, else the earliest matching dynamic rule, else none |
| `ApprovalRules.ApprovalRuleSet.CheckAll` | brenn-approval-rules/src/lib.rs:246-259 | the loop reports the first command's match when every command has one, and nothing otherwise |
| `ApprovalRules.ApprovalRuleSet.Check` | brenn-approval-rules/src/lib.rs:231-265 | for every input: a global tool if and only if the tool is in the set; otherwise a Bash command line gets the match of its first command if each has a rule, other input that of its text, each the rule of least index, static before dynamic; none exactly when some text has no rule |
| `ApprovalRules.CheckIsExact` | brenn-approval-rules/src/lib.rs:231-287 | the rule set's verdict as a value is the one that indices of rules and positions of separators determine |
| `ApprovalRules.VerdictIsUnique` | brenn-approval-rules/src/lib.rs:231-287 | no other verdict satisfies that description |
| `ApprovalRules.CompiledOfConcat` | brenn-approval-rules/src/lib.rs:163-213 | of the configured rules exactly those of at most 512 bytes that compile are kept, in order |
| `ApprovalRules.ApprovalRuleSet.AddDynamic` | brenn-approval-rules/src/lib.rs:291-294 | whatever the new rule matches is approved from then on, whatever was approved keeps its reported match, and nothing changes for other tools |
| `ApprovalRules.ApprovalNeedsARule` | brenn-approval-rules/src/lib.rs:268-287 | a text is approved if and only if some rule for the tool matches it |
| `ApprovalRules.BashApprovalIsConjunctive` | brenn-approval-rules/src/lib.rs:231-265 | with Bash not approved globally, a command line is approved if and only if it can be split and every command is approved; one that cannot be split never is |
| `ApprovalRules.JoinApprovedIffBoth` | brenn-approval-rules/src/lib.rs:231-265 | two command lines joined by a separator that parts them are approved if and only if both are |
| `ApprovalRules.GrowthIsMonotone` | brenn-approval-rules/src/lib.rs:291-294 | after any added rules, an approved input is approved with the same reported match, and a newly approved one has a command that an added rule matches and no earlier rule did |
| `CronSchedule.ComputeNextInner` | brenn-automation/src/job.rs:289-327 | the search ends and returns the least genuine occurrence strictly after a moment, past any number of clock-change artefacts; None if and only if there is none |
| `CronSchedule.ComputeNextIsLeast` | brenn-automation/src/job.rs:282-286 | the same of the stored time: no occurrence lies between the moment and the result |
| `CatchUp.WalkToMostRecentPast` | brenn-automation/src/loop_task.rs:201-234 | the walk ends at the greatest occurrence after the anchor and not after now, when the gap is at most 90 whole days, and at none otherwise |
| `CatchUp.CatchUpRefines` | brenn-automation/src/loop_task.rs:71-196 | each due job that is not persistent is advanced to the least future occurrence and logs nothing, or, if it will never fire again, is disabled with that moment noted and gains exactly one row; every other job and its rows are untouched |
| `JobTables.PruneKeepsWindow` | brenn-automation/src/fire.rs:757-765 | pruning rows older than a day changes neither limiter's count of any job over the last hour |
| `JobTables.CascadeKeepsOthers` | brenn-automation/src/schema.rs:60-75 | deleting a job's fires changes no count of another job |
| `AutomationStore.Store.Create` | brenn-automation/src/lib.rs:195-301 | a create succeeds if and only if every check in the list holds and the app is below the cap, and then adds one job with exactly the fields asked for, due at the least occurrence after now; otherwise it changes nothing and gives the refusal of the first check that fails |
| `RequestChecks.CreateIsExact` | brenn-automation/src/lib.rs:195-301 | the same of the plan: its checks in order, each with its refusal, and every field of the row |
| `AutomationStore.Store.UpdateJob` | brenn-automation/src/db.rs:81-122 | the write of an edit changes neither what identifies a job nor what it has done, touches no other row, and forgives failures exactly when the plan says so |
| `AutomationStore.Store.Edit` | brenn-automation/src/lib.rs:304-474 | only the owner can edit; an edit is refused for the first check that fails and changes nothing then; otherwise every field is the request's where it names one and the old one elsewhere, a new trigger is due at its least occurrence after now and after the last fire, and failures are forgiven exactly when it enables a disabled job |
| `RequestChecks.EditIsChecked` | brenn-automation/src/lib.rs:304-474 | the same of the plan: its checks in order, each with its refusal |
| `RequestChecks.EditIsExact` | brenn-automation/src/lib.rs:446-474 | an edit that is read and written without interference leaves exactly the fields described |
| `AutomationStore.Store.Delete` | brenn-automation/src/lib.rs:477-525 | only the owner can delete; exactly the job and its fires go, or nothing does and the refusal says why |
| `AutomationStore.Store.DeleteRow` | brenn-automation/src/db.rs:125-132 | exactly the job and its fires go, and no window count of another job changes |
| `AutomationStore.Store.CommitRow` | brenn-automation/src/fire.rs:677-768 | every field of the row afterwards, and which fires are in the log: the new one, and all others except this job's of more than a day ago; nothing changes when the row is gone |
| `AutomationStore.Store.FinishFire` | brenn-automation/src/fire.rs:307-384 | the bookkeeping of a fire without interference: its ending by whether occurrences are left and the row is there; a report if and only if it failed and fewer than the cap of the last hour's rows, counted by index, were reported; every field of the row, its log, and the least next occurrence |
| `AutomationStore.Store.HandleUnsatisfiableCron` | brenn-automation/src/fire.rs:470-519 | a job whose trigger has run out is disabled with that moment noted, nothing else of it changed, and exactly one row logged, whose outcome counts with both limiters; for a deleted job nothing is written |
| `AutomationStore.Store.RunStartupCatchup` | brenn-automation/src/loop_task.rs:71-196 | the loop over due jobs is the catch-up transition |
| `Identities.StepKeepsWellFormed` | brenn-automation/src/lib.rs:304-525 | under any interleaving: uuids are unique and never used again, fires have parents, snapshots and calls in progress never come to mean another job |
| `RateLimits.StepKeepsLimits` | brenn-automation/src/fire.rs:29-50 | every step keeps the account: what was let through in the last hour is covered by the log and the fire in progress, despite overrides, pruning, cascades and the run-out path |
| `RateLimitTheorems.FireCapHolds` | brenn-automation/src/fire.rs:29-50 | on every run, every closed window of an hour holds at most the cap of a job's fires past the gate, plus those lost to a crash in that window, plus one if it was deleted between scan and gate; the converse, that only a full hour stops a fire, is `LimiterDecisions.DropsAreJustified` |
| `LimiterDecisions.GateIsExact` | brenn-automation/src/fire.rs:29-50 | the gate lets a fire through if and only if fewer than the cap of log indices hold a row of the job, of the last hour, that was not dropped |
| `LimiterDecisions.DropsAreJustified` | brenn-automation/src/fire.rs:29-50 | on every run, a fire is dropped only when the log held a full hour of its job at that step |
| `RateLimitTheorems.CapIsExceededExactly` | brenn-automation/src/fire.rs:29-50 | on every run, some hour exceeds the cap if and only if the gate let a fire through when the hour before was full, because the job had been deleted or a fire had been lost |
| `RateLimitTheorems.ReportCapHolds` | brenn-automation/src/fire.rs:329-384 | whenever an ordinary error report goes out, at most the cap, this one included, have been reported in the hour before, although the count and the booking are separate steps; one more if it is booked on another job's row, and then it is its job's last |
| `LimiterDecisions.DecideIsExact` | brenn-automation/src/fire.rs:329-384 | a report is due if and only if the fire failed and fewer than the cap of log indices hold a reported row of the last hour; and which outcome is stored |
| `LimiterDecisions.SilentFailuresMetAFullHour` | brenn-automation/src/fire.rs:329-384 | on every run, a failure is booked without a report only if it was decided on a full hour |
| `LimiterDecisions.CommitIsExact` | brenn-automation/src/fire.rs:677-768 | the booking stores that outcome, and shows a report exactly when one is due |
| `RateLimitTheorems.ReportCapIsExceededExactly` | brenn-automation/src/fire.rs:329-384 | on every run a report exceeds the cap if and only if it is booked on another job's row, is about a fire of the hour before, and finds the cap of that hour used up |
| `QueueIntegrity.StepPresent` | brenn-automation/src/fire.rs:29-50 | a step leaves every waiting job its row, and so its log, if and only if it deletes none of them |
| `QueueIntegrity.CapIsExact` | brenn-automation/src/fire.rs:29-50 | without a delete between scan and gate and without a crash between gate and booking, no hour exceeds the cap |
| `QueueIntegrity.StepSurvives` | brenn-automation/src/fire.rs:470-519 | a step keeps the scheduler out of the way of its panic if and only if it neither deletes a job during its last fire nor begins a last fire without a row |
| `QueueIntegrity.SchedulerLives` | brenn-automation/src/fire.rs:470-519 | on runs that keep to that the scheduler never dies |
| `QueueIntegrity.StepTakeover` | brenn-automation/src/schema.rs:20-47 | a row id changes hands under a job about to be fired if and only if a create takes it |
| `QueueIntegrity.FiresLandAtHome` | brenn-automation/src/fire.rs:677-768 | on runs without that every booking and every report is on its own job's row, and the report cap holds without exception |
| `KnownGaps.CapCanBeExceeded` | brenn-automation/src/fire.rs:638-652 | a run with a cap of one in which a delete gives a job two fires within the hour |
| `KnownGaps.CrashRepeatsFire` | brenn-automation/src/loop_task.rs:79-94 | a run with a cap of one in which a crash gives a persistent job two fires within the hour, for one slot, although the process catches up before it scans |
| `KnownGaps.ReportCapCanBeExceeded` | brenn-automation/src/fire.rs:654-671 | a run with a cap of one and two reports of a job within the hour |
| `KnownGaps.DeleteCanKillScheduler` | brenn-automation/src/fire.rs:470-519 | a run in which deleting a job takes the scheduler down |
| `KnownGaps.StaleEditRepeatsFire` | brenn-automation/src/lib.rs:446-464 | a run in which renaming a job makes it fire the same slot twice |
| `KnownGaps.StaleEditRevives` | brenn-automation/src/lib.rs:446-464 | a run in which renaming a job re-enables one that had just been disabled automatically |
| `KnownGaps.FireCanLandElsewhere` | brenn-automation/src/fire.rs:700-739 | a run in which a fire is booked on a job that never fired |
| `ScheduleInvariant.StepSchedule` | brenn-automation/src/lib.rs:384-464 | a step leaves every job due at a genuine occurrence after its last fire if and only if it is not a stale edit write or a booking on a changed trigger |
| `ScheduleInvariant.ScheduleHoldsExactly` | brenn-automation/src/lib.rs:384-464 | every job is on schedule in every state of a run if and only if no step of it is one of those |
| `ScheduleInvariant.UndisturbedRunsStayOnSchedule` | brenn-automation/src/fire.rs:315-327 | if every fire is booked on a row that has the trigger it was scanned with, and every edit writes a row that has not fired since it was read, every job is always due at a genuine occurrence after its last fire |
| `OneFirePerSlot.OneFirePerSlotHolds` | brenn-automation/src/loop_task.rs:29-59 | on every run without edit writes, from any start, two fires of a job have an occurrence between them if and only if they are of different slots, so any number of missed slots collapse into one fire and the next waits for the next slot; fires of one slot are of a persistent job with a loss in between |
| `OneFirePerSlot.SlotRepeatsExactly` | brenn-automation/src/loop_task.rs:71-187 | on such runs two consecutive fires of a job lack an occurrence between them if and only if the job is persistent and the first fire was lost to a crash |
| `LimiterDecisions.ScanIsExact` | brenn-automation/src/db.rs:328-411 | a scan takes exactly the enabled jobs whose time has come, each once, as they are, the earliest first |
| `ScanRounds.RoundIsComplete` | brenn-automation/src/loop_task.rs:54-57 | from a scan until the scheduler rests, whatever calls run meanwhile, the slots fired are those scanned, each once and in order; at any moment before, the first of them |
| `FailureCounter.StepFair` | brenn-automation/src/db.rs:81-122 | a step keeps every enabled job below the failure threshold, and every automatically disabled one disabled, if and only if it is not an edit that overwrites a disabling |
| `FailureCounter.FailureThresholdHolds` | brenn-automation/src/fire.rs:358-366 | with edits that do not straddle a change of the enabled flag, this holds in every state reached |
| `FailureCounter.DisablingIsMarked` | brenn-automation/src/fire.rs:700-739 | under any interleaving, a job that any step but an edit disables carries the moment it was disabled |
| `FailureCounter.FireDisablesExactly` | brenn-automation/src/fire.rs:358-366 | a fire disables its job if and only if it failed and its failures, from those it was scanned with, reach the threshold |
| `FailureCounter.StepCount` | brenn-automation/src/fire.rs:700-739 | a step keeps counters equal to histories if and only if no failure is booked over a change of the counter |
| `FailureCounter.CounterCountsFailures` | brenn-automation/src/fire.rs:700-739 | on such runs, from any start, a job's counter is its number of failed fires since its last success or re-enabling, on top of what it started with if there was neither |
| `FailureCounter.UntouchedCountersCount` | brenn-automation/src/fire.rs:358-366 | so it is on every run in which no edit reaches a job about to be fired or firing and no create takes its row id |
| `Ownership.OwnersAreIsolated` | brenn-automation/src/lib.rs:304-525 | after any run, a step of one app's call changes no row and no fire of another app, although ownership was checked in an earlier step |
| `Ownership.JobCapHolds` | brenn-automation/src/lib.rs:257-292 | under any interleaving no app has more jobs than the cap, if every app started within it |
| `StartupChecks.StartupDb.RebindAll` | brenn-automation/src/startup.rs:47-121 | the loop rebinds exactly the mappings of another owner, deletes exactly the stale ones, and adds one conversation per rebinding |
| `StartupChecks.StartupDb.DisableOrphanJobs` | brenn-automation/src/startup.rs:126-159 | the loop disables exactly the enabled jobs of apps that are not configured |
| `StartupChecks.StartupDb.RunConsistencyChecks` | brenn-automation/src/startup.rs:18-165 | the program performs the pass |
| `StartupChecks.PassMakesConsistent` | brenn-automation/src/startup.rs:18-165 | afterwards every mapping of a configured app with a known first user points to that user's conversation, every enabled job has a configured owner, jobs that were disabled or have a configured owner are as they were, and the others are disabled with that moment noted |
| `StartupChecks.PassIsIdempotent` | brenn-automation/src/startup.rs:18-165 | a second pass, at any later time, changes nothing |
| `OrphanJobs.OrphansNeverFire` | brenn-automation/src/startup.rs:126-159 | after the startup pass, in every state of every run, no job of an app that is not configured is enabled, waiting or firing, whatever apps call |
| `SurfaceSchedules.Schedules.Ready` | surface/kernel/src/activation.rs:506-542 | the loops pick the ready instance that comes first after the last one served, going round, and nothing exactly when nothing is ready |
| `SurfaceSchedules.Schedules.Track` | surface/kernel/src/activation.rs:316-331 | a new instance is owed its mount from here if a document is in force, and the table stays in order |
| `SurfaceSchedules.Schedules.Forget` | surface/kernel/src/activation.rs:383-388 | exactly that instance leaves the table, the rotation stays where it was, and the table stays in order |
| `SurfaceSchedules.Schedules.WireMounts` | surface/kernel/src/activation.rs:340-346 | the loop makes every waiting mount owed and changes no other debt |
| `SurfaceSchedules.Schedules.Assemble` | surface/kernel/src/activation.rs:622-644 | after an assembly the instance cannot be picked until it finishes, every other instance comes before it in the rotation, and its debt is settled whatever the reason |
| `MountGuarantee.MountGuaranteeHolds` | brenn-activation/src/lib.rs:95-131 | on every run of a page a debt is owed exactly from the first document to the first activation of the mount; a mount wake is always a mount's first, a delivery always has a port that is allowed, wakes and is behind, and at most one activation per mount is empty |
| `ActivationGate.GateIsExact` | brenn-activation/src/schedule.rs:124-129 | the gate answers a mount if and only if one is owed, a delivery if and only if none is and some port is allowed, wakes and is behind |
| `MountGuarantee.CallIsExact` | surface/kernel/src/outward.rs:96-259 | a call is refused for the first check that fails, and otherwise runs its instance, settles its mount and takes its place in the rotation |
| `PageLifecycle.LifecycleIsExact` | surface/kernel/src/turn.rs:335-393 | on every run of a page, an instance is in the table exactly while it is in service, terminal exactly from its death until it is taken out, and in flight exactly from its activation to its end, whichever event ends it |
| `MountGuarantee.UnservedMountIsReady` | brenn-activation/src/schedule.rs:124-129 | a wired, idle mount that has had no activation is ready at every dispatch, whatever its ports hold |
| `MountGuarantee.ReadyIsExact` | surface/kernel/src/activation.rs:506-542 | an instance can be picked if and only if it is in service, alive and idle, and owed its mount or something on a port |
| `MountGuarantee.AssemblyIsSound` | surface/kernel/src/outward.rs:96-259 | no dispatch and no call assembles without wiring, or for an instance that is absent, terminal or already running |
| `RoundRobin.RotationIsExact` | surface/kernel/src/activation.rs:488-542 | while a ready instance is passed over, those served come round towards it one after the other if and only if no call passes it |
| `RoundRobin.NoneIsServedTwice` | surface/kernel/src/activation.rs:488-542 | while a ready instance waits and no call passes it, no other is activated twice, so it waits for fewer activations than there are instances |
| `RoundRobin.CallsCanStarve` | surface/kernel/src/activation.rs:596-644 | for every number of laps, a run of a fresh page in which calls let one instance run that often while a ready one waits |

## Left out

- Regular expressions: compiling and matching are an abstract predicate, and the suggested default patterns are not modelled.
- JSON: a tool input is its command, if it has one, and its serialized text.
- Bash in the global set: approval of Bash through `global_extra` makes every command approved; the Bash theorems assume it is not there.
- Trimmed pieces: splitting a reported command again is not modelled; trimming can cut an escaped blank, so stability is stated for raw pieces.
- Cron and time zones: the libraries are an oracle that returns the least candidate after a time, up to a horizon; the oracle does not change during a run.
- SQL text, timestamp text and row decoding: tables are maps and sequences, and stored times are whole seconds.
- Delivery of a fire: messenger, access rules, conversations and budgets become an arbitrary outcome; create and edit checks on the environment are booleans.
- The sleep between scans, wake-ups, roster republishing, alerts and listing jobs.
- Crashes inside a transaction or between the commit of a fire and its prune or report: the bookkeeping is one step.
- Lock fairness: a clock reading and the first database access after it are one step.
- The unconditional notice of a trigger that has run out is not an ordinary report and is not counted as one.
- The rule set changing during one check: the program takes its lock for each command of a compound input; a check here sees one rule set.
- StartupChecks: a new conversation's id is assumed to be named by no conversation and no mapping.
- Activation windows, positions, drop accounting, publish buffers and pacing: only who is activated, when and why.
- The backend host of the gate, and the page's separate mount pass for instances with the `dom` grant.
- SurfacePage: an instance is in the scheduler's table exactly while it is registered, as the page keeps them together.
- Bootstrap, command line and configuration files.
