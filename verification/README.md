# Verified model of the Dune admin stack

A Dafny 4.11 model of the state machines and text transformations behind the admin
panel of a game server, with the properties they are there for. `dafny verify
dfyconfig.toml` checks the whole project.

The repository pays players, scales game instances, restarts the server, and edits its
configuration files. What can go wrong is rarely inside one function: it is a payment
made twice because two tables disagree, a restart fired again after a crash, a scale-down
on a reading that was not a reading, a setting that takes a neighbour with it. So the
main results here are about whole runs and about pairs of functions.

- **Battlepass** (`Battlepass`, `BattlepassSafety`, `BattlepassRuns`, `BattlepassPays`,
  `BattlepassStore`): claims, seen markers and the grant ledger as one state. Ticks, manual
  grants, demotes, purges, reseeds, tier edits and configuration changes interleave freely,
  and the publisher is an arbitrary function of the call number. Every (tier, account) is
  paid at most once, and only for progress the engine saw happen, or with award_past on; and
  whom a tick or a manual grant must pay is told from the tables and what was read.
- **Events** (`Rewards`, `Events`, `EventsOps`, `EventsSafety`, `EventsRuns`,
  `EventsReads`, `EventsPays`, `EventsStore`): an ordered, resumable delivery plan under a
  claim ledger with bounded attempts. Payments follow one plan in order, with no step paid
  twice, as long as no tick raises after it has paid: a tick that does is rolled back, but
  its payments are not (`EventsRuns.RollbackPaysTwice`). The rows count the attempts exactly as
  long as no tick rolls a failed one back; past that they have no limit
  (`EventsRuns.RollbackFailsForever`). Which ticks roll back is told exactly from what they
  read and the tables they start from (`EventsReads.TickCommitsIff`).
- **Scheduler** (`Schedule`, `ScheduleSafety`, `ScheduleSlots`, `ScheduleLedger`,
  `ScheduleTasks`): every ledger write is its own step, a crash may come between any two,
  and operator commands write from other processes. Restarts are at most once per arm and on
  time, and a slot is armed exactly on its days and within its grace. Two limits of the
  protocol are proved exactly: which cancels come too late, and which slots can be armed
  again.
- **Autoscaler** (`Autoscaler`, `AutoscalerRuns`, `AutoscalerAnswers`, `DimensionPool`,
  `DimensionPoolRuns`, `DimensionPoolAnswers`, `TravelDemand`, `TravelForms`, `LogTailer`):
  the decision functions, the stored timers, the shared log tailer, and the second pool with
  its in-flight lock and cooldown. Nothing is scaled down unless the whole idle window was
  read as empty, and each action has an exact condition on what was read.
- **INI engine** (`Lines`, `Ascii`, `IniSyntax`, `IniMerge`, `IniScan`, `IniLaws`,
  `IniArrayLaws`, `IniArrayReads`, `IniArrayFrames`, `IniFlatLaws`, `IniPlaces`,
  `Settings`): the single-pass writers and the readers they are paired with: read back,
  frame and idempotence over arbitrary text, and where each writer puts its lines. A value
  that spans lines can break the first three, and for each the results say exactly when.
- **Login gate** (`LoginGate`, `LoginGateRuns`): the pruned and swept limiter answers like
  an unswept history; the quota and the time to wait are exact.
- **Planners and transformations** (`InventoryPlan`, `InventoryAnswers`, `Chunked`,
  `ChunkedSizes`, `LogTail`, `EventMaps`, `EventMapsLaws`, `EventMapsWoven`, `Cooldown`,
  `BaseGuard`, `BaseGuardReads`), each with its round trip, frame or refinement, and with
  what it reads and writes spelled out.

Code that updates state step by step is modelled as a class or a method with loops, each
proved against a function; the laws are about those functions. Where code and
documentation disagree the model follows the code:

- the events documentation promises a 24-hour backoff between attempts, but only the retry
  pass enforces it (`scripts/admin_events.py:596-601`): evaluating a due event retries a
  pending claim at once (`scripts/admin_events.py:582-589`);
- a multi-line value of a `string` setting passes normalisation
  (`scripts/admin_ini_merge.py:379-380`) and reaches writers that are line-based;
- the patch of the world template means to refuse a server group above the list of maps
  (`scripts/patch_event_maps.py:161-162`), but compares the ends of the sets, so such a
  template can pass;
- the log tailer means to start over on a rotated log, but notices a rotation only while the
  new log is shorter than what was read of the old one (`scripts/admin_autoscaler.py:566-567`);
- the chunked decoder takes any integer Python reads in base 16, a negative one included
  (`scripts/fls-stub.py:373-381`).

Conventions: SQL row order is an `order` parameter; the publisher is a function `pub` from
the number of the call to its result; fields called histories (`delivered`, `marks`,
`plans`, `misses`, intent numbers, slots, `seen` of a task row, `allowed`) exist only
to state properties; the hash of a reward is the reward itself, an injective hash; times
are whole seconds, or reals for the login gate and the cooldowns.

## Model

| member | source | states |
|---|---|---|
| BattlepassRuns.PaidAtMostOnce | scripts/admin_battlepass.py:399-485 | over every run of ticks, manual grants, demotes, purges, reseeds, tier edits and config changes, and whatever the publisher answers, a (tier, account) gets at most one successful intel award, and what it was handed is nothing or exactly one tier row's reward, its items once each |
| BattlepassRuns.DeliveryIsFinal | scripts/admin_battlepass.py:399-485 | once a claim is paid, no later event, a purge and re-earning included, adds to what it was paid or changes the tier it was paid under |
| BattlepassSafety.RunKeepsInv | scripts/admin_battlepass.py:430-485 | in every reachable state claims, ledger rows and payments agree: a pending or exhausted row backs an earned claim, a granted claim has a granted row, pending means fewer than three attempts, and the payments match the record of deliveries |
| BattlepassSafety.StepKeepsInv | scripts/admin_battlepass.py:399-625 | each single event keeps that agreement, from any state that has it |
| BattlepassSafety.RacedBranchIsDead | scripts/admin_battlepass.py:439-454 | in every state of the invariant a row that reaches delivery is granted already or backs an unpaid earned claim, so the branch that seals a raced row is never taken |
| BattlepassSafety.DeliverKeepsInv | scripts/admin_battlepass.py:430-485 | one delivery keeps the invariant on every branch: skipped, paid, postponed because the player is online, failed, exhausted |
| BattlepassSafety.GrantEarnedKeepsInv | scripts/admin_battlepass.py:582-625 | a manual grant, which enqueues and delivers tier by tier, keeps the invariant |
| BattlepassSafety.ResetKeepsInv | scripts/admin_battlepass.py:399-427 | a demote or a purge, of one account or all, keeps the invariant: the granted rows stay |
| BattlepassRuns.PaidTierWasListed | scripts/admin_battlepass.py:430-485 | the tier a claim was paid under is a row the catalog held at some point of the run |
| BattlepassRuns.PayableIsJustified | scripts/admin_battlepass.py:349-369 | every earned or granted claim was created, since the last purge covering its account, by a tick that saw its tier satisfied while there was no claim, and that tick ran with award_past on or came no earlier than one that, since that purge too, saw the tier unsatisfied while there was no claim |
| BattlepassRuns.SeenWasWatched | scripts/admin_battlepass.py:539-556 | behind every seen marker there is such a tick that saw the tier unsatisfied |
| BattlepassRuns.StepProvenance | scripts/admin_battlepass.py:539-556 | one event makes a claim payable only when it is a tick that sees the tier satisfied while there is no claim, with award_past on, a seen marker there, or progress it saw missing itself; a new marker comes only from progress seen missing; and neither from a purge of the account |
| BattlepassRuns.BaselineNeedsPurge | scripts/admin_battlepass.py:539-556 | a baseline claim stays at baseline, with no call made for it, until a purge covers its account |
| BattlepassRuns.ScanIsPointwise | scripts/admin_battlepass.py:530-556 | the nested scan loops apply the decision table, for every enabled tier and every account, to the rows listed for the account in order, and touch nothing else; an account may be listed more than once |
| BattlepassRuns.DecidedAtFirstMet | scripts/admin_battlepass.py:349-369 | over those rows an open claim is earned when the tier is met after it was seen unmet, be it earlier in the same list, or with award_past on; it becomes a baseline when it is met at first sight, and stays open with a marker when it is never met |
| BattlepassRuns.DuePassPays | scripts/admin_battlepass.py:560-575 | with a publisher that answers 0, every due deliverable claim the pass reaches is paid, granted and sealed |
| BattlepassRuns.TickPaysEveryEarnedClaim | scripts/admin_battlepass.py:492-579 | with auto-grant on, every fetch answered and a publisher that answers 0, one tick pays an earned claim in full and under its tier, provided its tier is enabled, its player is listed with a name to send to, its row is absent or due, and the pass reaches it |
| BattlepassStore.Store.DeliverGrant | scripts/admin_battlepass.py:430-485 | the method that updates the three tables computes the specified delivery and outcome |
| BattlepassStore.Store.ScanPlayer | scripts/admin_battlepass.py:530-556 | the scan loop of one player computes the specified claims and markers, or reports that a fetch failed and nothing of the scan is kept |
| BattlepassStore.Store.EnqueueEarned | scripts/admin_battlepass.py:557-566 | the loop enqueues every earned claim and leaves existing ledger rows as they are |
| BattlepassStore.Store.DeliverDue | scripts/admin_battlepass.py:566-579 | the delivery loop computes the specified pass over the due rows in order |
| BattlepassStore.Store.RunTick | scripts/admin_battlepass.py:492-579 | a tick on the tables is the specified tick, early returns and the failed fetch included |
| BattlepassStore.Store.GrantAccount | scripts/admin_battlepass.py:582-625 | a manual grant on the tables is the specified one |
| BattlepassStore.Store.ResetClaims | scripts/admin_battlepass.py:399-427 | a demote or purge on the tables is the specified one |
| BattlepassStore.Store.ReseedTiers | scripts/admin_battlepass.py:216-235 | a reseed replaces the whole catalog and answers how many tiers there are, or changes nothing when the list is empty, a row is invalid or a key repeats |
| BattlepassStore.Store.SeedIfEmpty | scripts/admin_battlepass.py:202-213 | seeding fills an empty catalog and leaves any other alone |
| BattlepassStore.Store.UpdateTier | scripts/admin_battlepass.py:244-273 | an edit replaces the tier of that id, answers that there is none, or is refused when the merged row is invalid, each exactly in its case |
| BattlepassPays.ManualGrantPays | scripts/admin_battlepass.py:582-625 | a manual grant for a player who can be named, with a publisher that answers 0, pays every earned claim of the account that it reaches and that was not paid before, in full under its tier, whether the tier is enabled and whether the row is new, waiting or out of attempts |
| BattlepassPays.OnlineEndsGrant | scripts/admin_battlepass.py:611-624 | a manual grant makes no call after the award that finds the player online |
| BattlepassPays.TickPaysEarned | scripts/admin_battlepass.py:492-579 | told from the tables, the switches and the players listed: an engine that is on, at its time or forced, with auto-grant on, every query answered and a publisher that answers 0, pays each claim earned before, not paid and not waiting, of an enabled tier and a player listed once with a name to send to |
| BattlepassPays.ScanMeans | scripts/admin_battlepass.py:349-369 | an open claim of a player listed once is decided by that player's own level, node or tag: met, it is earned if it was seen unmet before or past progress counts, and a baseline otherwise; unmet, it stays open with a marker |
| BattlepassPays.ScanRaisesIff | scripts/admin_battlepass.py:530-556 | a scan raises exactly when some row, by its place in the list, needs a journey or tag query that did not answer: for a tier of that kind its player has no claim of, and that no earlier row of the same account met |
| BattlepassPays.AttemptIsRecorded | scripts/admin_battlepass.py:430-485 | what one delivery of an open claim records: with code 4 five more minutes and no attempt lost; with any other refusal one attempt more and a day to wait, exhausted at the third |
| BattlepassPays.FirstRefusalIsFirstAttempt | scripts/admin_battlepass.py:557-579 | a claim that is newly earned is queued with no attempt behind it, due at once: refused by the tick that finds it, its row has one |
| BattlepassPays.ManualRefusalIsFirstAttempt | scripts/admin_battlepass.py:609-624 | so it is when a manual grant queues it |
| BattlepassPays.TickLeavesWaiting | scripts/admin_battlepass.py:566-579 | a row that waits for a later time or is exhausted is left as it is by every tick, and no call is made for it |
| BattlepassPays.NoAutoGrant | scripts/admin_battlepass.py:557-579 | with auto-grant off a tick makes no call and queues nothing |
| BattlepassPays.TickIsPaced | scripts/admin_battlepass.py:492-528 | a tick does nothing while the engine is off, nor before its time unless forced, and otherwise sets the time of the next |
| BattlepassPays.ResetMeans | scripts/admin_battlepass.py:399-427 | claim by claim: a demote turns the earned claims in its scope into baselines, a purge removes claims and markers there, either drops the rows there that are not sealed, and nothing else changes |
| BattlepassPays.CatalogIsSound | scripts/admin_battlepass.py:216-273 | over every run the catalog holds sound tiers only, whatever a reseed or an edit proposes |
| Rewards.BuildSteps | scripts/admin_rewards.py:91-101 | the loops that build the plan give the currency step, the items in order, the experience in order |
| Rewards.StepsIncrease | scripts/admin_rewards.py:91-101 | the plan is strictly increasing in (stage, index) |
| Rewards.RemainingAtFailure | scripts/admin_rewards.py:109-158 | resuming at the cursor of a failed step owes exactly that step and the ones behind it |
| Rewards.CursorPinsStep | scripts/admin_rewards.py:109-117 | two positions of a plan never share a cursor |
| Rewards.RemainingIsSuffix | scripts/admin_rewards.py:120-158 | whatever is stored as cursor, blank, malformed or of another reward, what remains is a suffix of the plan |
| Rewards.StepsAre | scripts/admin_rewards.py:91-101 | the plan holds the currency when there is any, every item and every award, each once with its own payload, and nothing else |
| EventsRuns.PaymentsFollowOnePlan | scripts/admin_events.py:496-539 | as long as no tick raises after it paid: the payments of a claim since its event was last reset are none, or a prefix, in order, of the steps of one reward that its own event has had, across any failures and reward edits; the whole of them once a delivery under it finished; and while the claim is not granted its cursor is the step of that reward they stopped at |
| EventsRuns.PlansWereOffered | scripts/admin_events.py:496-539 | over every run, whatever raises, a claim is delivered only under rewards a definition of its event has had |
| EventsRuns.AtMostThreeDeliveries | scripts/admin_events.py:331-346 | as long as no tick raises after a failed or an announced delivery, at most three attempts at a claim fail, a player who is not found included, fewer when it ends up granted, and its success is announced at most once |
| EventsRuns.RollbackFailsForever | scripts/admin_events.py:361-363 | without that there is no bound: with a publisher that refuses and a later read that raises, each of n ticks fails a delivery of the same claim, whose row is never written, for every n |
| EventsRuns.RunKeepsIff | scripts/admin_events.py:675-719 | all through a run the tables agree with the payments exactly when no tick raises after paying, and count the attempts exactly when none raises after a failed or an announced delivery |
| EventsRuns.AnsweredTickCommits | scripts/admin_events.py:542-719 | in particular a tick for which every game read answers, consulted or not, names online players only, and finds its targets or finds nobody, commits, whatever the tables hold |
| EventsRuns.AnsweredRunsKeepAll | scripts/admin_events.py:496-719 | so when every read a tick consults answers, in the sense of TickCommitsIff, every run follows one plan with no step twice, fails at most three attempts and announces once |
| EventsReads.TickCommitsIff | scripts/admin_events.py:542-719 | a tick commits exactly when, told from its inputs and the tables it starts from, every read it consults answers: the players when an event is due or it boots; for the boot pass the qualifiers of each milestone, those offline claimed already; for each due event its own reads, with no open qualifier and no winner offline; and the target of each due retry the tick has not attempted by then |
| EventsRuns.TickCommitsOnRunIff | scripts/admin_events.py:675-719 | the same at every point of every run, where event ids are distinct |
| EventsRuns.TickAgreesIff | scripts/admin_events.py:675-719 | a tick from an agreeing state leaves claims and payments agreeing exactly when it does not raise after a payment |
| EventsRuns.TickCountsIff | scripts/admin_events.py:675-719 | a tick from a state whose rows count every attempt leaves them counting every attempt exactly when it does not raise after a failed or an announced delivery |
| EventsRuns.StepKeeps | scripts/admin_events.py:222-287 | so for every other event, which never breaks either: create, update, enable, reset, delete |
| EventsRuns.RollbackPaysTwice | scripts/admin_events.py:361-363 | the concrete run in which it fails: a query error behind a payment rolls the claim back and the next tick pays it again |
| EventsRuns.SettledStays | scripts/admin_events.py:496-539 | granted and exhausted are absorbing: no event but a reset or delete of its own changes the row |
| EventsSafety.SettledIsSilent | scripts/admin_events.py:496-512 | once granted or exhausted, a claim is neither rewritten, paid, failed nor announced by any further operation |
| EventsSafety.OpsKeep | scripts/admin_events.py:331-539 | every operation a tick is made of keeps the agreement between rows, cursor and payments, and, apart from it, the exact count of attempts |
| EventsOps.TickOps | scripts/admin_events.py:675-719 | whatever a tick does before it commits or raises is a list of operations on single claims |
| EventsRuns.OpenClaimIsPaidInFull | scripts/admin_events.py:496-539 | when every grant succeeds, one delivery pays exactly what an open claim was still owed and seals it |
| EventsRuns.WinnerIsFirst | scripts/admin_events.py:553-570 | the winner of a zone race is the first account in list order that stands in the zone and is not settled yet |
| EventsStore.Store.ApplyOutcome | scripts/admin_events.py:496-539 | the method on the tables computes the specified outcome on every branch |
| EventsStore.Store.Deliver | scripts/admin_rewards.py:161-169 | the delivery loop makes the calls of the remaining plan in order and stops at the first failure, which it returns |
| EventsStore.Store.RecordFailed | scripts/admin_events.py:331-346 | a failure inserts or updates the row, counts the attempt, and exhausts it at the third |
| EventsStore.Store.RecordMiss | scripts/admin_events.py:602-616 | a pending claim whose player is not found counts as a failed attempt and keeps its cursor |
| EventsStore.Store.SealGranted | scripts/admin_events.py:322-328 | sealing inserts or updates the row to granted and clears the cursor |
| EventsStore.Store.EvalQualifiers | scripts/admin_events.py:542-590 | the qualifier loop applies the outcome to each account in order |
| EventsStore.Store.EvalZone | scripts/admin_events.py:548-571 | a zone race applies the outcome to its winner only |
| EventsStore.Store.EvaluateDue | scripts/admin_events.py:696-712 | the evaluation loop stamps and evaluates every due event in order |
| EventsStore.Store.Backfill | scripts/admin_events.py:628-654 | the boot pass claims what is already met, without reward unless award_past is set |
| EventsStore.Store.RetryPass | scripts/admin_events.py:593-625 | the retry pass goes over the pending rows whose backoff is over, in order, and skips those whose event or player is gone |
| EventsStore.Store.RunTick | scripts/admin_events.py:675-719 | a tick on the tables is the specified tick: committed, or rolled back with its calls already made |
| EventsStore.Store.DeleteEvent | scripts/admin_events.py:273-287 | a delete removes the event with all its claims |
| EventsPays.TickPaysQualifier | scripts/admin_events.py:542-590 | with a publisher that answers 0, a tick that commits pays in full, and announces if its event does, every player who wins a due event by level, tag or zone and whose claim is open, told from the players online and the readings |
| EventsPays.TickPaysDueRetry | scripts/admin_events.py:593-625 | and every pending claim whose time has come, what it is still owed, when the player is found and the event still offers the reward it was begun under |
| EventsPays.RetryPays | scripts/admin_events.py:593-625 | the retry pass pays such a claim the rest of its plan, grants it, and announces nothing |
| EventsPays.BootTickGives | scripts/admin_events.py:628-654 | at boot a tick that commits grants whoever meets an enabled milestone and has no claim, paid in full with award_past on and with nothing at all when it is off, and announces neither |
| EventsPays.TickSkipsOthers | scripts/admin_events.py:675-719 | no tick makes a claim, or a payment, for an event that is off or whose time has not come, or for a player who does not win it |
| EventsPays.FailureWaits | scripts/admin_events.py:331-346 | a delivery that fails counts one attempt more, exhausts the row at the third, waits a day, and is not announced |
| EventsPays.EditedRewardParks | scripts/admin_events.py:513-523 | a claim begun under another reward is parked out of attempts, with nothing paid or announced |
| EventsPays.RetryWaits | scripts/admin_events.py:593-601 | the retry pass leaves alone a claim whose time has not come, that is settled, or that is out of attempts |
| EventsPays.DueStamps | scripts/admin_events.py:696-712 | every evaluated event is next due its own seconds, or seven, and the jitter later; no other time changes |
| ScheduleSafety.AtMostOneCallPerArm | scripts/admin_schedule.py:676-704 | with a crash possible between any two ledger writes and during the call, and operator writes between any two steps, restart calls never outnumber arms, no two calls serve one arm, and each call is made no earlier than its armed time and at most the staleness bound after it |
| ScheduleSafety.GoneStaysGone | scripts/admin_schedule.py:676-704 | an intent that neither the ledger nor a tick holds is never called again, whatever happens next |
| ScheduleSafety.FiredOrDiscardedNeverFires | scripts/admin_schedule.py:681-703 | the panel call and the discard of a stale intent both leave it gone for good |
| ScheduleSafety.CrashLosesIntent | scripts/admin_schedule.py:669-680 | a crash after the intent was consumed loses it: never a second call |
| ScheduleSafety.CancelledFiresIff | scripts/admin_schedule.py:552-577 | a cancelled restart can still fire exactly when the cancel landed after a tick had read it and found it fresh enough to fire |
| ScheduleSafety.CancelRace | scripts/admin_schedule.py:552-577 | that race, as a concrete run |
| ScheduleSafety.DueIntentIsCalled | scripts/admin_schedule.py:676-704 | left alone, a tick that finds a due and fresh intent calls the panel for it, once, with the ledger already cleared |
| ScheduleSafety.ReachesAnnouncement | scripts/admin_schedule.py:706-738 | left alone, a tick that does not fire is the arming of the slot when it is due, followed by the announcement of what is pending when its window is open |
| ScheduleSafety.DueSlotIsArmedAndAnnounced | scripts/admin_schedule.py:706-738 | so a slot that comes due is armed and announced by one tick: pending for the end of the lead, with the row that marks the slot written and no call made |
| ScheduleSafety.OneArmPerSlot | scripts/admin_schedule.py:258-274 | no slot is armed twice by a run in which, until the announcement of an armed slot is recorded, nothing but the arming tick moves, and the clock does not run back |
| ScheduleSafety.CanArmIff | scripts/admin_schedule.py:258-274 | from any state, with row clocks that do not run behind the last announcement, a slot can still be armed, for the first time or again, exactly when no announcement has been recorded at or after it or a tick has decided to arm it already |
| ScheduleSafety.CrashRearmsSlot | scripts/admin_schedule.py:258-274 | with a crash there, a slot is armed twice: the concrete run |
| ScheduleLedger.SchedulerLedger.ArmRestart | scripts/admin_schedule.py:534-549 | the writes of an arm leave the ledger the machine has after its arming steps, and record the row |
| ScheduleLedger.SchedulerLedger.CancelRestart | scripts/admin_schedule.py:552-577 | a cancel clears the three keys and says whether the countdown had been announced |
| ScheduleLedger.SchedulerLedger.Last | scripts/admin_schedule.py:345-349 | the newest row of any one kind, by position and not by time |
| ScheduleLedger.SchedulerLedger.FirePending | scripts/admin_schedule.py:676-704 | the firing branch writes what the machine writes when nothing interrupts it |
| ScheduleLedger.SchedulerLedger.RunTick | scripts/admin_schedule.py:661-738 | an undisturbed tick on the ledger is the machine run to idle |
| ScheduleSlots.TickArmsIff | scripts/admin_schedule.py:258-274 | left alone with nothing pending, a tick arms exactly when it is configured and enabled, the day of the week, from Monday, is listed or none is, the time is within the grace of a slot that is a second of the day, and the newest announcement is older than the slot; and it arms that slot |
| ScheduleSlots.UnconfiguredIsNoted | scripts/admin_schedule.py:706-716 | an open slot of a panel that is not configured is noted as skipped, and nothing is armed |
| ScheduleSlots.PendingIsAnnounced | scripts/admin_schedule.py:706-738 | while a restart is pending no slot is armed: it is announced once its window has come, and nothing else changes |
| ScheduleSlots.DueIsFiredOrDiscarded | scripts/admin_schedule.py:676-704 | a due restart at most ten minutes late is called, its attempt recorded before and its failure after; a later one is discarded and recorded as skipped; nothing stays pending |
| ScheduleSlots.ArmedByHandFires | scripts/admin_schedule.py:534-549 | a restart armed by hand and left alone is quiet until its window, announced inside it, and called by a tick that comes when it is due |
| ScheduleTasks.SlotSettlesOnce | scripts/admin_schedule.py:286-318 | over every history of ticks, runs by hand, crashes and plan edits with a clock that does not run back, no daily slot is settled twice |
| ScheduleTasks.HandSettlesSlot | scripts/admin_schedule.py:351-360 | a row that settles at or after the time of a slot, whoever wrote it, settles the slot: no run for it is decided on once the row is there |
| ScheduleTasks.PeriodicRunsAreSpaced | scripts/admin_schedule.py:277-298 | an interval task or a backup starts no run sooner than its period after any earlier row of its history, failed runs and runs by hand included |
| ScheduleTasks.ErrorRetriesDailyOnly | scripts/admin_schedule.py:351-360 | a failed daily run leaves its slot as due as it was; a failed periodic run waits its period |
| ScheduleTasks.TaskLedger.FindLast | scripts/admin_schedule.py:345-360 | the backward search gives the newest row, or the newest that settled |
| ScheduleTasks.TaskLedger.RunTask | scripts/admin_schedule.py:756-774 | the loop body runs a scheduled task exactly when it is due and appends its row |
| ScheduleTasks.TaskLedger.RunByHand | scripts/admin_schedule.py:794-798 | a run by hand appends its row whatever is due |
| ScheduleTasks.DailyRunsIff | scripts/admin_schedule.py:300-318 | a daily task runs, and is recorded once, exactly when it is on, the day is listed or none is, the time is within the hour of its slot, and no settled run marks the slot |
| ScheduleTasks.IntervalRunsIff | scripts/admin_schedule.py:286-298 | an interval task runs exactly when it is on, its minutes are a number, and that many, one at least, are over since its newest row |
| ScheduleTasks.BackupRunsIff | scripts/admin_schedule.py:277-283 | a backup runs exactly when it is on and its hours, one at least, are over since its newest row |
| AutoscalerRuns.ScaleDownIsSafe | scripts/admin_autoscaler.py:315-374 | over every interleaving of full ticks, wake passes and config changes, a scale-down is decided by a full tick that reads exactly 0 online, goes to the floor, every evaluated full tick since the idle timer began also read 0, that span is at least the drain time, and no recorded demand lies within the grace |
| AutoscalerRuns.WakeOnlyRaises | scripts/admin_autoscaler.py:861-924 | a wake pass only ever raises replicas, and only of tracked maps |
| AutoscalerRuns.TickIsPointwise | scripts/admin_autoscaler.py:792-858 | the map loop decides each tracked map once, from its own timers, and leaves the timers of every other map alone |
| AutoscalerRuns.WakeIsPointwise | scripts/admin_autoscaler.py:861-924 | a wake pass arms the grace of exactly the demanded maps |
| AutoscalerRuns.DecisionCoversLoad | scripts/admin_autoscaler.py:309-374 | after an evaluated decision the replicas are never below the floor, whatever was read, at least the smaller of the ceiling and the load that was read, and above the ceiling only when unchanged; an unreadable count never scales down |
| AutoscalerRuns.NeededIsCeil | scripts/admin_autoscaler.py:309-312 | the load target is the exact ceiling of online over players per instance |
| AutoscalerRuns.AtMostOneAction | scripts/admin_autoscaler.py:315-374 | whatever the run before and however full ticks and wake passes interleave, an enabled map under a constant readable population, no demand and applied patches is scaled at most once |
| AutoscalerRuns.RestStays | scripts/admin_autoscaler.py:315-374 | and a map that is at rest is not scaled again, on the same runs |
| AutoscalerRuns.EmptyMapDrains | scripts/admin_autoscaler.py:345-374 | an empty map above its floor is down to it once a tick of such a run finds the drain time over and no remembered demand inside the grace |
| AutoscalerRuns.TickActsOn | scripts/admin_autoscaler.py:792-858 | a full tick acts on a map at most once, and as its own decision says |
| Autoscaler.AutoscalerLedger.RunTick | scripts/admin_autoscaler.py:792-858 | the method that updates the stored timers computes the specified full tick |
| Autoscaler.AutoscalerLedger.RunWake | scripts/admin_autoscaler.py:861-924 | the wake method arms every grace first and then wakes, as specified |
| Autoscaler.Wake | scripts/admin_autoscaler.py:895-924 | the wake loop gives exactly the actions that raise a demanded map |
| AutoscalerAnswers.TickRaisesIff | scripts/admin_autoscaler.py:315-352 | a full tick raises a map to n replicas exactly when it is enabled and tracked, has fewer, and n is the fewest that honour the minimum, seat everybody online and, for a travelling player, are at least one, or the cap of the configured maximum and four when that is fewer |
| AutoscalerAnswers.TickLowersIff | scripts/admin_autoscaler.py:353-374 | a full tick lowers a map exactly when it is enabled and tracked, above its clamped minimum, read as empty, empty for the drain time by its stored timer, and no travel to it falls within the grace; and it lowers it to that minimum |
| AutoscalerAnswers.WakeRaisesIff | scripts/admin_autoscaler.py:861-924 | a wake pass raises a map to n replicas exactly when somebody travels to it, it is enabled and tracked, has fewer, and n is that target without a player count |
| AutoscalerAnswers.TravelWakes | scripts/admin_autoscaler.py:861-924 | an enabled, tracked map that is down and may have a replica is raised to one at least by the wake pass, and by the full tick, that sees somebody travel to it |
| AutoscalerAnswers.LoadRaises | scripts/admin_autoscaler.py:309-352 | a full tick that reads more players than the replicas of a map seat, with room left under the caps, raises it |
| AutoscalerAnswers.TickStamps | scripts/admin_autoscaler.py:792-858 | the travel a full tick saw is stamped; the empty timer runs exactly while the map is read as empty above its minimum and was not acted on, from when it first was; a disabled map keeps both |
| AutoscalerAnswers.TickActsOnce | scripts/admin_autoscaler.py:792-858 | a full tick acts on configured, tracked maps alone, and once each |
| DimensionPoolRuns.DecisionsAreSpaced | scripts/admin_autoscaler.py:419-489 | over every run any two spawn or reap decisions are at least the cooldown apart |
| DimensionPoolRuns.NothingWhileSpawning | scripts/admin_autoscaler.py:633-696 | after a spawn that started, nothing is decided until that dimension was seen live or the spawn window lapsed |
| DimensionPoolRuns.ReapIsSafe | scripts/admin_autoscaler.py:419-489 | a reap targets only a dimension that every readable tick of the whole idle window saw live and empty |
| DimensionPoolRuns.DecisionIsBounded | scripts/admin_autoscaler.py:419-489 | a spawn takes the lowest offline dimension within the clamped ceiling; a reap takes an empty live one and keeps the clamped floor |
| DimensionPoolRuns.TimersMirrorEmptyDims | scripts/admin_autoscaler.py:633-696 | the stored timers are exactly those of the empty live dimensions, except that a successful reap drops the reaped one's |
| DimensionPoolRuns.NextOfflineIsLeast | scripts/admin_autoscaler.py:463 | the search gives the least offline dimension, or says there is none |
| DimensionPoolRuns.NextReapIsGreatest | scripts/admin_autoscaler.py:480-488 | the search gives the greatest dimension idle long enough, or says there is none |
| DimensionPool.PoolLedger.RunTick | scripts/admin_autoscaler.py:633-696 | the method that mirrors timers, clears and sets the in-flight marker and acts computes the specified tick |
| DimensionPoolAnswers.TickSpawnsIff | scripts/admin_autoscaler.py:419-474 | a tick spawns a dimension exactly when every live row is readable, no spawn is under way, the cooldown is over, the live ones are short of the warm floor or full by the players on them with room under the maximum and the rows, and that dimension is the lowest one offline |
| DimensionPoolAnswers.TickReapsIff | scripts/admin_autoscaler.py:475-488 | it reaps one exactly when it may act and does not spawn, more are live than the clamped floor, and that dimension is the highest one live, empty and idle for the drain time |
| DimensionPoolAnswers.LoadSpawns | scripts/admin_autoscaler.py:466-474 | in a pool that may act, with one offline and room, it spawns exactly when the live ones are fewer than the minimum or as many players are on as they are meant for |
| DimensionPoolAnswers.TickStamps | scripts/admin_autoscaler.py:633-696 | every action stamps the cooldown, a started spawn is remembered, a landed or lapsed one forgotten, and rows that cannot be read change nothing |
| LogTailer.BatchesAreExact | scripts/admin_autoscaler.py:549-578 | for a log that only grows, the batches of any interleaving of passes, unreadable ones included, concatenate to exactly the complete lines after the first-run offset |
| LogTailer.PassLeavesNoLine | scripts/admin_autoscaler.py:549-578 | after a readable pass no complete line is left unread |
| LogTailer.BatchesMissNoDemand | scripts/admin_autoscaler.py:261-286 | the pointwise maximum over the batches' demands is the demand of their concatenation |
| LogTailer.Tailer.ReadNewLines | scripts/admin_autoscaler.py:549-578 | the tailer gives the specified lines and offset: first run, missing or unreadable file, rotation, half-written line |
| LogTailer.RotationLosesNothing | scripts/admin_autoscaler.py:549-578 | from the pass on that finds the log replaced by a shorter one, the batches of any interleaving concatenate to exactly the complete lines of the new log up to the stored offset |
| LogTailer.RotationSeenIff | scripts/admin_autoscaler.py:566-567 | the pass that finds a replaced log hands out all its complete lines exactly when the log is shorter than the stored offset, nothing had been read, or it has none: a rotation that has grown back is not noticed |
| TravelDemand.ParseTravelDemand | scripts/admin_autoscaler.py:261-286 | the loops compute the demand of the window |
| TravelDemand.DemandIsPeak | scripts/admin_autoscaler.py:261-286 | the map holds exactly the names recorded, each with its peak |
| TravelDemand.PeakBounds | scripts/admin_autoscaler.py:261-286 | the peak is at least every count recorded under the name and is one of them |
| TravelDemand.DemandConcat | scripts/admin_autoscaler.py:261-286 | the demand of two stretches of log is the pointwise maximum of theirs |
| TravelDemand.RecordsStayApart | scripts/admin_autoscaler.py:247-286 | records run together on one physical line read as if each stood alone: none borrows the name or count of the next |
| TravelForms.RequestForm | scripts/admin_autoscaler.py:257 | "Travel request for N player(s) to NAME", in any case, is a record of N for NAME, whatever follows the name |
| TravelForms.RequestIff | scripts/admin_autoscaler.py:257 | and a text that is read as a request has that form |
| TravelForms.QueueReads | scripts/admin_autoscaler.py:256 | a queue record names the longest word behind its head, or behind "ClassicalInstancing group " when one stands there, and nobody without one |
| TravelForms.CountReads | scripts/admin_autoscaler.py:258 | its count is the number behind the first "num:" or "num=", and 0 without any |
| TravelForms.OneRecord | scripts/admin_autoscaler.py:261-286 | a line that is one record is that request, that queue with its count, or nothing |
| IniLaws.KeyedReadBack | scripts/admin_ini_merge.py:85-131 | for every text, the key reads back as the stripped first line of what was written: repeated headers, commented keys and a missing final newline included |
| IniLaws.KeyedReadBackIff | scripts/admin_ini_merge.py:307-327 | it reads back as the whole stripped value exactly when nothing visible follows the value's first newline |
| IniLaws.KeyedFrame | scripts/admin_ini_merge.py:85-131 | after a value is set whose further lines are inert every other key and every other section reads as before, as a plain key and as an array |
| IniLaws.KeyedFrameIff | scripts/admin_ini_merge.py:85-131 | another setting reads as before whatever the text exactly when the lines of the value past its first hold no value for its readers and leave its section as current, or not, as it was |
| IniLaws.OneLineFrame | scripts/admin_ini_merge.py:85-131 | so after any one-line value every other key and every other section reads as before, for every text |
| IniLaws.KeyedIdempotentIff | scripts/admin_ini_merge.py:85-131 | a second identical write changes nothing exactly when the value is one line |
| IniLaws.MultiLineValueLeaks | scripts/admin_ini_merge.py:379-380 | a value that spans lines sets a second key on the empty text, for all keys and parts |
| IniArrayReads.RepeatedReadBackIff | scripts/admin_ini_merge.py:134-194 | for every text and every list, the array reads back as the values written, stripped and in order, and as unset when there are none, exactly when every value is blank past its first line |
| IniArrayReads.RepeatedReadBack | scripts/admin_ini_merge.py:134-194 | so one-line values read back for every text |
| IniArrayLaws.OthersKeptInOrder | scripts/admin_ini_merge.py:134-261 | every line the writer does not own, entries of the same key with other values included, is kept in order around one contiguous block; a missing section is appended only when there is something to write |
| IniArrayLaws.RepeatedIdempotent | scripts/admin_ini_merge.py:134-194 | so for one-line values a second identical array write changes nothing |
| IniArrayLaws.MatchedIdempotentIff | scripts/admin_ini_merge.py:197-261 | a second identical matched write changes nothing exactly when every new line is an entry the writer owns, its value among the matched ones |
| IniArrayLaws.BlockIdempotentIff | scripts/admin_ini_merge.py:134-261 | the same, for either array writer and any block of single entries |
| IniArrayLaws.BlockFrame | scripts/admin_ini_merge.py:134-261 | a write of either array writer whose new lines are single entries of the array leaves every other key and section reading as before |
| IniArrayFrames.RepeatedFrameIff | scripts/admin_ini_merge.py:134-194 | whatever the values, another setting reads as before for every text exactly when the written lines hold no value for its readers and leave its section as current, or not, as it was; the second does not matter to the same key in another section |
| IniArrayFrames.RepeatedIdempotentIff | scripts/admin_ini_merge.py:134-194 | whatever the values, a second identical array write changes nothing exactly when every line it puts down, the further lines of a value included, is an entry of the array |
| IniFlatLaws.FlatReadBack | scripts/admin_ini_merge.py:287-304 | the flat writer's value reads back, for every text |
| IniFlatLaws.FlatFrame | scripts/admin_ini_merge.py:287-304 | after a value whose further lines hold nothing of another key, that key reads as it did |
| IniFlatLaws.FlatFrameIff | scripts/admin_ini_merge.py:287-304 | another key reads as before whatever the text exactly when the lines of the value past its first hold no value of it |
| IniFlatLaws.OneLineFlatFrame | scripts/admin_ini_merge.py:287-304 | so after any one-line value every other key reads as before, for every text |
| IniFlatLaws.FlatIdempotentIff | scripts/admin_ini_merge.py:330-338 | and is idempotent exactly for one-line values |
| IniSyntax.HitIsSilent | scripts/admin_ini_merge.py:89-91 | a line one writer owns is no entry of another key to any reader |
| IniMerge.WriteKeyed | scripts/admin_ini_merge.py:85-131 | the single-pass loop with its flags writes the entry where the specification places it |
| IniMerge.WriteBlockLines | scripts/admin_ini_merge.py:145-180 | the single-pass loop puts the block at the first hit or the end of the section's first stretch and drops every hit of the section |
| IniMerge.WriteRepeated | scripts/admin_ini_merge.py:134-194 | the array writer computes the specified text |
| IniMerge.WriteMatched | scripts/admin_ini_merge.py:197-261 | so does the matched writer |
| IniMerge.BeforeHeader | scripts/admin_ini_merge.py:163-170 | the lines put in before a trailing blank line keep their order |
| IniMerge.WriteFlat | scripts/admin_ini_merge.py:287-304 | so does the flat writer |
| IniMerge.FindKeyed | scripts/admin_ini_merge.py:307-327 | the reader's loop returns the first value of the section |
| IniMerge.FindRepeated | scripts/admin_ini_merge.py:264-284 | the array reader's loop returns every live value, joined, or None |
| IniMerge.FindFlatValue | scripts/admin_ini_merge.py:330-338 | the flat reader's loop returns the first value |
| IniPlaces.KeyedReplaces | scripts/admin_ini_merge.py:85-131 | the first line of the section's first stretch that sets the key, commented or not, gives way to key=value and nothing else changes |
| IniPlaces.KeyedInserts | scripts/admin_ini_merge.py:103-131 | without one the line goes in at the end of that stretch, ahead of the next header and of a blank line before it, or last in the text, which is ended first |
| IniPlaces.KeyedCreates | scripts/admin_ini_merge.py:122-126 | without the section a blank line, its header and the line are appended |
| IniPlaces.BlockReplaces | scripts/admin_ini_merge.py:145-180 | the array writers put the block in place of the first line they own, drop every later one in any stretch of the section, and keep the rest |
| IniPlaces.BlockInserts | scripts/admin_ini_merge.py:145-194 | without one the block goes in at the end of the first stretch, and lines they own in later stretches go |
| IniPlaces.BlockCreates | scripts/admin_ini_merge.py:182-194 | without the section it is created at the end, when there is something to write |
| IniPlaces.ArrayWriters | scripts/admin_ini_merge.py:134-261 | the array writer puts down +key=value for each value in order, the matched writer its lines, each ended |
| IniPlaces.FlatPlaces | scripts/admin_ini_merge.py:287-304 | the first line of the file that sets the key, commented or not, gives way to the new one; without any it is appended |
| IniPlaces.KeyedOwns | scripts/admin_ini_merge.py:91 | a keyed writer owns the lines with the key, in any case, behind white space and semicolons, and an equals sign after white space |
| IniPlaces.ArrayOwns | scripts/admin_ini_merge.py:148 | an array writer owns the live lines of its key: bare, or behind one of the marks - + . ! |
| IniPlaces.MatchedOwns | scripts/admin_ini_merge.py:216-240 | the matched writer owns those of them whose stripped value is listed |
| IniPlaces.ReadsLine | scripts/admin_ini_merge.py:269-323 | a reader takes from a line the stripped text behind the key: bare for the keyed one, behind + or . too for the array one |
| IniPlaces.ReadersAnswer | scripts/admin_ini_merge.py:264-327 | the keyed reader answers the first value the section holds in any of its stretches, the array reader all of them in order |
| Settings.SettingReadsBackIff | scripts/admin-http.py:763-853 | a plain or quoted setting reads back as the normalised value written, whatever the file held, exactly when the value is one line |
| Settings.ArrayReadsBack | scripts/admin-http.py:763-853 | an array setting reads back as the list written; an empty list clears it |
| LoginGateRuns.AnswerIsUnswept | scripts/admin-http.py:485-514 | an attempt passes exactly when fewer than the quota of allowed attempts since the last clear lie in the closed window that ends now, whatever was pruned or swept |
| LoginGateRuns.RunKeepsInv | scripts/admin-http.py:485-525 | over every run of attempts and clears the buckets forget nothing that still counts |
| LoginGateRuns.QuotaHolds | scripts/admin-http.py:495-514 | over every run no window of the configured length, wherever it starts, holds more allowed attempts of one address than the quota |
| LoginGateRuns.RetryAfterIsExact | scripts/admin-http.py:511-512 | the time to wait is exact whatever other addresses do meanwhile: after waiting it the attempt passes, at least one second earlier it is refused |
| LoginGate.Gate.Sweep | scripts/admin-http.py:485-492 | the sweep drops exactly the buckets whose newest attempt is too old |
| LoginGate.Gate.LoginAttemptGate | scripts/admin-http.py:495-514 | sweep, prune, refuse or charge, as specified |
| LoginGate.Gate.ClearLoginAttempts | scripts/admin-http.py:523-525 | a clear removes the one bucket |
| LoginGateRuns.ClearForgets | scripts/admin-http.py:523-525 | after a clear the next attempt of the address passes, whatever it tried before, and no other address is touched |
| LoginGateRuns.AttemptStores | scripts/admin-http.py:485-514 | an attempt leaves in its bucket the stored attempts that still count and itself when it passes; with too many buckets exactly those others stay whose last attempt still counts, otherwise all of them, unchanged |
| InventoryPlan.PlanConserves | scripts/admin_inventory_plan.py:79-107 | what the topped-up stacks gain and the new stacks hold is exactly the quantity asked for |
| InventoryPlan.PlanNeverOverfills | scripts/admin_inventory_plan.py:92-106 | a stack with room stays within the limit, a full or over-full one is left as it is, a new one holds between one and the limit |
| InventoryPlan.FewestNewStacks | scripts/admin_inventory_plan.py:79-107 | for an item that stacks, no valid way to place the quantity opens fewer new stacks |
| InventoryPlan.LargestFirst | scripts/admin_inventory_plan.py:89-101 | a stack gains nothing while a larger one still has room |
| InventoryPlan.PositionsAreNew | scripts/admin_inventory_plan.py:192-196 | new stacks take consecutive positions above every position in use |
| InventoryPlan.PlannedIff | scripts/admin_inventory_plan.py:156-190 | a request is planned exactly when it names a template and a positive quantity, the volume holds all of it and the slots hold a stack for each full or begun limit of what the existing stacks have no room for; anything else is refused and carries no change |
| InventoryPlan.PlanGiveItemStacks | scripts/admin_inventory_plan.py:79-107 | the two loops compute the specified top-ups and new stacks |
| InventoryPlan.BuildGiveItemPlan | scripts/admin_inventory_plan.py:156-198 | the checks in order, then the plan with its positions |
| InventoryAnswers.RefusedIff | scripts/admin_inventory_plan.py:156-190 | the checks come in this order, template, quantity, volume, slots, and the first that fails is the answer: with the most items the free volume holds, or with the new stacks needed and the slots free |
| InventoryAnswers.FirstServed | scripts/admin_inventory_plan.py:88-101 | of two stacks the larger, and of two alike the one listed first, is filled before the other gains anything; every top-up adds something and no stack gets two |
| InventoryAnswers.NewStacksAreFull | scripts/admin_inventory_plan.py:102-106 | there are as many new stacks as hold what is left over, and all but the last are full |
| Chunked.RoundTrip | scripts/fls-stub.py:354-382 | decoding what section 4.1 of RFC 7230 encodes, with any extensions and trailers, gives back the payload |
| Chunked.TruncationIsPrefix | scripts/fls-stub.py:365-382 | an encoding cut off anywhere decodes to a prefix of the payload |
| Chunked.DecodesFrom | scripts/fls-stub.py:365-382 | the same from any position inside a text, with what was decoded before it |
| Chunked.Dechunk | scripts/fls-stub.py:354-382 | where its loop ends, the decoder returns what the turns of the loop collect |
| Chunked.NegativeSizeNeverEnds | scripts/fls-stub.py:373-381 | a negative size is accepted and moves the position back: on the four bytes -6 CR LF the loop never ends |
| Chunked.EndsWithoutNegativeSize | scripts/fls-stub.py:365-382 | where no minus sign starts a stretch that reads as a negative size, the loop ends |
| Chunked.EndsIff | scripts/fls-stub.py:365-382 | the loop ends exactly when it ends within a turn for each byte and one more |
| ChunkedSizes.StepReads | scripts/fls-stub.py:365-381 | one turn of the loop: a line that states nothing is skipped, one that states no number or zero is the end, and behind any other come as many bytes as it states, or what there is of them, and two more |
| ChunkedSizes.SizeLineIs | scripts/fls-stub.py:369 | the size stands before any semicolon, without the white space around it |
| ChunkedSizes.SizeIff | scripts/fls-stub.py:374 | a size is an optional sign, an optional 0x with at most one underscore, and hexadecimal digits with single underscores between them, and reads as the number they write |
| LogTail.TailFile | scripts/admin_logs.py:81-99 | reading backwards in chunks of any size returns the last lines of the whole file split at once |
| LogTail.EnoughNewlines | scripts/admin_logs.py:94-99 | text that holds more newlines than lines wanted ends in all of those lines, wherever in the file it starts |
| EventMapsLaws.InsertOnly | scripts/patch_event_maps.py:145-170 | the original lines, the last one ended, are a subsequence of the patched ones; a text to which nothing is added is returned as it is |
| EventMapsLaws.Idempotent | scripts/patch_event_maps.py:145-170 | patching the patched text finds nothing to add and changes nothing |
| EventMapsLaws.PatchedListReads | scripts/patch_event_maps.py:145-170 | the patched list names what it named before, the maps that were missing, and whatever those copied lines name |
| EventMapsLaws.ListsExactlyTheMissingIff | scripts/patch_event_maps.py:145-170 | the patched list names what it named before and exactly the maps that were missing, exactly when the copied lines that land at its end name nothing else before one of them ends the list |
| EventMapsLaws.ListsExactlyTheMissing | scripts/patch_event_maps.py:64-88 | so it does with the server group below the head of the list, and whenever each set that lands at the end of the list starts inside it |
| EventMapsLaws.GroupAboveListsMore | scripts/patch_event_maps.py:161-162 | a template with its server group above the list that passes the order check and ends up listing one map more |
| EventMapsLaws.ClonesStandWhole | scripts/patch_event_maps.py:164-170 | every added map's server set stands in one piece behind the list, however many are added |
| EventMapsLaws.CloneRenamesOneLine | scripts/patch_event_maps.py:136-142 | a cloned set keeps every line of its source but the map line, which keeps its indent and names the new map |
| EventMaps.FindSpan | scripts/patch_event_maps.py:64-83 | the scanning loop finds the list, its end and its indent, or the shape error |
| EventMaps.FindSet | scripts/patch_event_maps.py:91-117 | the scans find the source's server set, or the shape error |
| EventMaps.Patch | scripts/patch_event_maps.py:145-170 | every insertion is built from the original lines first and spliced in from the bottom up |
| EventMapsWoven.PatchIs | scripts/patch_event_maps.py:145-175 | a patch that adds something is the original lines in order with, at the end of the list, the items of the missing maps in order and, behind each server set that is copied, the copy, a later map's above an earlier one's |
| EventMapsWoven.AddedAre | scripts/patch_event_maps.py:152-155 | what is added is every map, as often as asked for, that no line of the list names at the indent of its items, and no other |
| EventMapsWoven.PatchFailsIff | scripts/patch_event_maps.py:145-162 | the patch is refused without a list, for the first missing map whose server set is not found, and when one of those sets ends above the end of the list, and in no other case |
| EventMapsWoven.SpanIff | scripts/patch_event_maps.py:64-83 | the list runs from the first content below the first head line, a map item, up to content indented less, or as much without being an item |
| EventMapsWoven.SetIff | scripts/patch_event_maps.py:91-117 | the server set of a map runs from the nearest item two blanks to the left at or above its map line, up to content indented no more than that |
| EventMapsWoven.SetFails | scripts/patch_event_maps.py:93-112 | it is refused without a server group, without a line below the group that names the map, and without such an item |
| EventMapsWoven.ItemReads | scripts/patch_event_maps.py:120-133 | the text of a new item, line by line: the map, one partition of dimension 0, the reserved id, and the unit square |
| Cooldown.PruningNeverShows | scripts/admin_chatcmd.py:121-159 | over every run of asks, allows, stamps and restarts, with time going forward, the ledger pruned at every save answers like one that keeps every stamp |
| Cooldown.PruningShowsIff | scripts/admin_chatcmd.py:137-159 | for given saved stamps and given times of a run and its saves, some players and commands make the ledger pruned at every save answer unlike one that keeps every stamp exactly when a save drops a stamp that is younger than the cooldown at a later moment |
| Cooldown.PruningNeverShowsIff | scripts/admin_chatcmd.py:137-159 | whatever was saved and whoever asks, it never shows exactly when no check is made for a time before the latest one known to an earlier save |
| Cooldown.BackwardClockShows | scripts/admin_chatcmd.py:157-159 | with a clock that goes back it can show: the concrete run |
| Cooldown.KeysAreDistinct | scripts/admin_chatcmd.py:142-155 | players and commands do not share a stamp as long as commands hold no bar |
| Cooldown.AllowedIff | scripts/admin_chatcmd.py:121-159 | with time going forward, saved and rebuilt or not, a command is allowed exactly when its player has not used it before or last did so at least the cooldown ago |
| Cooldown.CooldownLedger.Allow | scripts/admin_chatcmd.py:145-150 | an allow stamps exactly when ready |
| Cooldown.CooldownLedger.State | scripts/admin_chatcmd.py:157-159 | what is saved is every stamp younger than the cooldown |
| BaseGuard.AddThenRemove | scripts/admin_baseguard.py:69-113 | adding the predicate is undone by removing it exactly when the anchor line ends in a newline; otherwise removal refuses and changes nothing |
| BaseGuard.UntouchedUnlessChanged | scripts/admin_baseguard.py:69-113 | what is refused or needs nothing done comes back as it was, and adding twice is adding once |
| BaseGuard.NothingEarlier | scripts/admin_baseguard.py:61-62 | no line before the inserted one can be taken for it |
| BaseGuardReads.AddWrites | scripts/admin_baseguard.py:83-99 | the guard goes in behind the first line that holds nothing but the anchor, on a line of its own, at the anchor's indent, with its kind of line end, in exactly these words |
| BaseGuardReads.AddsIff | scripts/admin_baseguard.py:69-99 | it is added exactly when it stands nowhere in the definition, however spaced, and some line holds nothing but the anchor; an empty, a guarded and an anchorless definition each say so |
| BaseGuardReads.RemoveWrites | scripts/admin_baseguard.py:102-113 | removing takes out the first line that holds nothing but the guard, with the newline that ends it |
| BaseGuardReads.RemoveRefuses | scripts/admin_baseguard.py:102-113 | without such a line it refuses, and where the guard is absent it does nothing |

## Left out

- The process dying inside one locked payout pass: the external payment and the database commit are not atomic together, so no at-most-once claim can hold there.
- EventsRuns.PaymentsFollowOnePlan: assumes no tick raises after it paid, because the code then rolls the claim back and pays again; `EventsRuns.RollbackPaysTwice` shows such a run. The condition is exact for the tables to agree with the payments (`EventsRuns.RunKeepsIff`); `EventsReads.TickCommitsIff` says exactly which ticks raise at all.
- EventsRuns.AtMostThreeDeliveries: assumes no tick raises after a failed or an announced delivery, for the same reason; `EventsRuns.RollbackFailsForever` shows there is no bound otherwise, `EventsRuns.RunKeepsIff` that the condition is exact for the rows to count every attempt.
- ScheduleSafety.OneArmPerSlot: assumes that only the arming tick moves until its announcement is recorded; `ScheduleSafety.CrashRearmsSlot` shows it fails otherwise, `ScheduleSafety.CanArmIff` exactly when a slot can be armed.
- IniLaws.KeyedFrame: for values whose further lines are inert, as `IniFlatLaws.FlatFrame`; the two Iff results show that this is exact, `IniLaws.MultiLineValueLeaks` what other values do.
- IniArrayLaws.BlockFrame: for new lines that are single entries; `IniArrayFrames.RepeatedFrameIff` and `IniArrayFrames.RepeatedIdempotentIff` take any values of an array. The matched writer is left at single lines, which its documentation asks for.
- IniArrayLaws.MatchedIdempotentIff: new lines are single lines that are not section headers, as the documentation of the writer asks.
- EventMapsLaws.ListsExactlyTheMissing: assumes that the sets which land at the end of the list start inside it; `EventMapsLaws.GroupAboveListsMore` shows a template that lists more, `EventMapsLaws.ListsExactlyTheMissingIff` exactly when.
- Chunked.Dechunk: for texts on which its loop ends, because on a negative size it need not; `Chunked.EndsIff` decides which.
- Chunked.EndsWithoutNegativeSize: a sufficient condition; the exact one is `Chunked.EndsIff`.
- InventoryPlan.PlanGiveItemStacks: for a quantity that is not negative, which is what its caller checks first.
- Cooldown.PruningNeverShows: for time that goes forward; `Cooldown.BackwardClockShows` shows a run where it shows, `Cooldown.PruningShowsIff` exactly when it can.
- LogTailer.BatchesAreExact: for a log that only grows; `LogTailer.RotationLosesNothing` takes a rotation that is noticed, `LogTailer.RotationSeenIff` says which one is.
- Autoscaler.AutoscalerLedger.RunTick: the log is taken to exist from the first pass; storing the offset of a log that never existed is an error in the source.
- Keys and sections are the ones a settings catalogue can hold: `IniSyntax.ValidKey` and `IniSyntax.ValidSection` rule out line ends, brackets at the start, array prefixes and surrounding white space.
- Unicode: case folding, white space, line splitting and UTF-8 decoding are modelled in ASCII with newline-separated lines; a carriage return is white space.
- Float rounding: ceilings are exact integers, volumes and distances exact reals.
- The event `version`, which the code never changes; tick summary counters; announcement texts; the choice between give and give-item for an online player; parsing of stored JSON, with a reward given as parsed.
- Battlepass signals are inputs of a tick, one record per tracked player, or the failure to fetch it.
- The certificate renewal of the scheduler tick, what a task does when it is run, and the validation of stored configuration.
- SQL text, subprocess calls, JSON files, md5, the network, threads and the locks that serialise them.
- HTTP routing, cookies, TLS, sessions, the connection slots of the server (one counter), and the web front end.
- `normalize_value` itself: `Settings` starts from its result.
- A limit on flapping of the dimension pool: reaping an empty dimension can itself raise the live average to the spawn threshold, so only the spacing of decisions is claimed.
- The market, progression, park, ban, backup, history, status and welcome modules: they would add easier members only.
