# Bella's Reef, modelled and proved

Bella's Reef is a reef-tank controller: an engine that dims lights along a day curve, a hardware service
that enforces safety interlocks, an API that pairs clients and keeps the registry, and a record of
threshold alerts. This project models its stateful and arithmetic pieces in Dafny and proves what each of
them promises, over every run and every input.

Where the source changes state in place, the model has a specification (a value and a function of the old
state) and an object whose methods are proved to compute it; the promises are proved of the specification.

| file | what it models |
|---|---|
| `Curve.dfy` | curve validation and the duty at a second of the day |
| `Scheduler.dfy` | the lighting scheduler: slew, deadband, refresh, hold memory, and the publishing tick |
| `History.dfy` | bucketing of a piecewise-constant signal, against its integral over clock ticks |
| `Interlock.dfy`, `Supervisor.dfy` | the interlock guards as a timed state machine, and the supervisor's objects |
| `PairingStore.dfy`, `Pairing.dfy` | pairing transactions, and the protocol: many callers whose transactions interleave |
| `PairingResults.dfy`, `PairingService.dfy` | what the protocol guarantees, and the endpoints run by one caller |
| `PairingAlone.dfy` | what each endpoint answers and leaves behind when nobody interferes, in the tables' terms, and what a grant and an answer rest on |
| `PairingGap.dfy` | a run of the protocol into the approval gap |
| `Overrides.dfy`, `OverrideEngine.dfy` | manual holds under two clocks, and the engine's loops over them |
| `Alerts.dfy` | threshold evaluation against the whole history of readings |
| `AlertRecord.dfy`, `AlertEngine.dfy` | the open-episode mirror, the record, and the merge between them |
| `AlertSteps.dfy` | the same with nothing atomic but the transactions: a resync may finish inside a reading |
| `Nullable.dfy` | the nullable rewrite of the published schema, and what schemas accept |
| `Registry.dfy` | the device registry |
| `SetupThrottle.dfy` | the setup-code throttle |
| `Arithmetic.dfy`, `Holds.dfy`, `Wrappers.dfy` | shared helpers |

Duties, levels and seconds are exact reals; history instants are whole microseconds. Database tables are
maps of rows and a transaction is one atomic step. Ids and tokens are opaque; a hash stands for the value it
was taken of. Wall-clock readings are arguments and may say anything; monotonic readings never go back.

## Where the code and its words differ

The model follows the code. These differences are stated as theorems.

- A poll in the gap between the transaction that approves a request and the hand-over of its token answers
  410 "already collected", although nobody has it yet and a later poll gets it. `PairingResults.PollAnswers`
  says exactly when, and `PairingGap.GapIsReached` is a run that gets there.
- `resync` says that a breach which begins during its read is not forgotten. One that clears before the read
  and is raised again after it is: the merged mirror has it closed, and the next raise is refused by the unique
  index. `AlertRecord.LostRaiseRun` is a run, `AlertRecord.FinishKeepsExactly` and `AlertRecord.ResyncExactly`
  are the conditions, for all runs, and `AlertRecord.NoRaiseIsLost` is what holds under them. A single raise is
  lost too, if the resync finishes between its write and its note, which then goes to a set that is no longer
  the mirror's: `AlertSteps.OvertakenRun`, exactly `AlertSteps.MergesKeepExactly` and
  `AlertSteps.WritesKeepExactly`.
- Between an operator's edit and the next resync the mirror may hold an episode that the edit has ended. A
  reading that asks for its end stops there, and a breach of the other bound in that same reading is not
  recorded. `AlertRecord.SpoiledBreachRun` is a run, `AlertRecord.BreachIsRecordedExactly` the condition.
- The nullable rewrite is to change spelling alone. It drops a sibling that shares a keyword with the kept
  branch (`Nullable.SharedKeywordIsLost`); a branch that forbids additional properties comes to allow those its
  siblings name (`Nullable.NamesAreBorrowed`), though no keyword is shared; a reference or an enumeration stops
  accepting null (`Nullable.NullIsLostOnReferences`, `Nullable.NullIsLostOnLists`). `Nullable.NullExactly` and
  `Nullable.FoldPreservesExactly` say exactly what a folded node accepts and when that is what it accepted
  before, for every node that is folded and every instance.
- The throttle's answer is a promise for one caller: a failure of another may take the place that comes free
  (`SetupThrottle.WaitingLosesThePlace`, exactly `SetupThrottle.WaitingAmongOthers`).
- The device table's comments speak of rebinding a light to other hardware. No operation does that:
  `Registry.HardwareStays`.

`step_buckets` skips a bucket whose covered time is not positive; the proof of `History.FillBucket` shows that
this never happens, so the model has no such branch.

## Model

The table lists the results. Beside them the modules fix their single steps: lemmas such as
`Interlock.DrivesExactly`, `Overrides.TriesExactly` or `Registry.AnnouncesExactly` say field by field, without the
model's own vocabulary, what one step writes and what it leaves alone.

| member | source | states |
|---|---|---|
| Curve.ValidateAcceptsExactly | contracts/python/bellasreef_contracts/schedules.py:131-153 | a curve is accepted exactly when it is clock-anchored, names no locale, its zone is known and its times strictly ascend |
| Curve.RefusesExactly | contracts/python/bellasreef_contracts/schedules.py:131-153 | which of the faults of a curve is reported, in order |
| Curve.DutyIsExactlyInterpolant | services/control_engine/bellasreef_control_engine/profiles.py:97-136 | the code's duty is the value of the cyclic interpolant, defined without reference to midnight, and of nothing else |
| Curve.NoSpecialMidnight | services/control_engine/bellasreef_control_engine/profiles.py:97-128 | shifting every point by k seconds round the clock gives a curve whose duty k seconds later is the old one |
| Curve.ShiftCurveIsShift | contracts/python/bellasreef_contracts/schedules.py:131-153 | a shifted valid curve, sorted again, is valid |
| Curve.OneSecondStep | services/control_engine/bellasreef_control_engine/profiles.py:97-136 | one second moves the duty by no more than the steepest segment, midnight included |
| Curve.RateLimited | services/control_engine/bellasreef_control_engine/profiles.py:97-136 | m seconds move it by no more than m times that, across any number of midnights |
| Scheduler.LightingScheduler.constructor | services/control_engine/bellasreef_control_engine/scheduler.py:85-133 | a scheduler starts with no memory of any channel |
| Scheduler.LightingScheduler.SetProfiles | services/control_engine/bellasreef_control_engine/scheduler.py:139-149 | a second profile for a channel is refused and changes nothing; otherwise only the profiles change |
| Scheduler.LightingScheduler.Intents | services/control_engine/bellasreef_control_engine/scheduler.py:151-218 | the loops over profiled and synthetic channels compute the specified intents and mutate nothing |
| Scheduler.LightingScheduler.MarkEmitted | services/control_engine/bellasreef_control_engine/scheduler.py:302-319 | one channel's memory becomes what was published; the others' stays |
| Scheduler.LightingScheduler.Forget | services/control_engine/bellasreef_control_engine/scheduler.py:332-368 | exactly one channel's memory is wiped |
| Scheduler.LightingScheduler.Reset | services/control_engine/bellasreef_control_engine/scheduler.py:321-330 | every channel is cold again, profiles stay |
| Scheduler.DueExactly | services/control_engine/bellasreef_control_engine/scheduler.py:151-291 | at most one intent per channel, and it is the decision that channel would get alone |
| Scheduler.RestingExactly | services/control_engine/bellasreef_control_engine/scheduler.py:188-218 | a channel rests at its own profile's curve at the local second, and at nothing without a profile |
| Scheduler.SnapIsOneStep | services/control_engine/bellasreef_control_engine/scheduler.py:241-276 | under a snap hold what is said is the held duty itself, whatever the rate, and it is said unless the channel is known to be snapped there |
| Scheduler.SnapArrives | services/control_engine/bellasreef_control_engine/scheduler.py:241-319 | one published tick brings a snap-held channel to its duty |
| Scheduler.ReleaseExactly | services/control_engine/bellasreef_control_engine/scheduler.py:244-254 | a release is said exactly when a snap hold was last published and is gone, and goes to the resting duty in one step |
| Scheduler.MovesNearest | services/control_engine/bellasreef_control_engine/scheduler.py:241-300 | any other move is the nearest duty to the target that the rate allows, all the way without a rate, and is marked as under way exactly when it has not arrived |
| Scheduler.SilentExactly | services/control_engine/bellasreef_control_engine/scheduler.py:188-291 | nothing is said to a channel if and only if nothing names or concerns it, or it is settled: within the deadband, the reach and the refresh, under the hold it was last published under |
| Scheduler.ReasonsExactly | services/control_engine/bellasreef_control_engine/scheduler.py:263-291 | the reason given, in the order in which reasons are looked for |
| Scheduler.PublishTick | services/control_engine/bellasreef_control_engine/app.py:672-755 | a tick decides once and records exactly the intents that were accepted |
| Scheduler.RunsAreLawful | services/control_engine/bellasreef_control_engine/scheduler.py:220-368 | in every run the memory is the last surviving publish per channel, and each publish obeys the slew law against the one before |
| Scheduler.SlewOverRuns | services/control_engine/bellasreef_control_engine/scheduler.py:241-300 | two publishes with no jump or wipe between them differ by at most rate times elapsed time, through failed publishes and swapped profiles; a cold start that is no jump is at the safe duty |
| Scheduler.NeverOvershoots | services/control_engine/bellasreef_control_engine/scheduler.py:241-300 | every intent lies between the previous duty and the target |
| Scheduler.TickAt | services/control_engine/bellasreef_control_engine/app.py:672-755 | a tick changes a channel's memory by that channel's own decision or not at all |
| Scheduler.ReleaseUntilPublished | services/control_engine/bellasreef_control_engine/scheduler.py:151-291 | a published snap hold, once gone, yields a release at the resting duty on every tick until one is published, even if the channel gains or loses a profile |
| Scheduler.ReleaseOnlyOnce | services/control_engine/bellasreef_control_engine/scheduler.py:220-319 | between two published releases of a channel lies another published snap hold |
| Scheduler.SilenceMeansSettled | services/control_engine/bellasreef_control_engine/scheduler.py:220-291 | silence on a profiled or held channel proves it within the deadband and younger than the refresh |
| Scheduler.ComesToRest | services/control_engine/bellasreef_control_engine/scheduler.py:151-300 | an unprofiled channel nobody holds any more ends at the safe duty: with the first published tick after a snap hold, otherwise when the published ticks cover the distance or bring the refresh, with a rate or without |
| Scheduler.RestIsSilent | services/control_engine/bellasreef_control_engine/scheduler.py:151-218 | a channel without a profile that rests at the safe duty stays silent until a hold or a profile names it |
| Scheduler.ReleasedThenSilent | services/control_engine/bellasreef_control_engine/scheduler.py:151-300 | so a released channel goes to the safe duty and is then left alone |
| Scheduler.StaysArrived | services/control_engine/bellasreef_control_engine/scheduler.py:259-300 | for a constant target a channel that has arrived stays there |
| Scheduler.Arrives | services/control_engine/bellasreef_control_engine/scheduler.py:259-319 | for a constant target and published ticks spaced apart, the duty is exactly the target once the ticks cover the distance |
| Scheduler.RefreshArrives | services/control_engine/bellasreef_control_engine/scheduler.py:241-300 | a residual inside the deadband is closed by the refresh at the latest |
| Scheduler.ArrivalIsEmitted | services/control_engine/bellasreef_control_engine/scheduler.py:259-319 | the step that ends a slew is published even inside the deadband |
| History.OrderPoints | services/api/bellasreef_api/history.py:425-430 | sorting with the last of equal instants winning leaves the held-value signal as it was |
| History.StepBuckets | services/api/bellasreef_api/history.py:412-473 | the nested loops produce the buckets of the held-value signal: least, greatest and coverage-weighted mean of the values in force |
| History.BucketingIsUnique | services/api/bellasreef_api/history.py:412-473 | there is only one such list of buckets |
| History.EveryBucketDescribes | services/api/bellasreef_api/history.py:412-473 | each bucket's extremes and mean are those of its own stretch, and min <= average <= max |
| History.PresentExactly | services/api/bellasreef_api/history.py:421-447 | a bucket is present exactly when the first sample precedes its end |
| History.BucketsConserve | services/api/bellasreef_api/history.py:412-473 | average times covered time, summed over the buckets, is the signal's integral over the window |
| History.CoveredTime | services/api/bellasreef_api/history.py:446-462 | the covered time is what lies after the first sample |
| History.RollUpIsCoarse | services/api/bellasreef_api/history.py:412-473 | combining each k buckets of step s gives the buckets of step k s, the clipped last one and late starts included |
| History.NeverMoreThanAsked | services/api/bellasreef_api/history.py:150-159 | with that step there are never more buckets than asked for, nor more than 1000 |
| History.LeastStep | services/api/bellasreef_api/history.py:150-159 | the step is the least whole number of seconds, at least one, with which the capped number of buckets spans the window |
| Interlock.RuntimeCap | services/hardware_io/bellasreef_hardware_io/safety.py:459-490 | in every state of every run in which the supervisor is running, a runtime clock is live exactly when the hardware is off its safe level, its deadline is the start of the stretch plus the cap, and past it the output is off safe only while a failed safe drive is being retried |
| Interlock.CapAfterStop | services/hardware_io/bellasreef_hardware_io/safety.py:292-331 | a stop ends the run with every clock gone, and the cap still holds of a guard if and only if its last drive landed or it was safe already |
| Interlock.HeartbeatHolds | services/hardware_io/bellasreef_hardware_io/safety.py:335-384 | while the supervisor is running, an output off safe has been heard from in time, is being driven safe, is being retried, or was raised by a command accepted after the trip |
| Interlock.OnlyCommandsRaise | services/hardware_io/bellasreef_hardware_io/safety.py:388-457 | the hardware is safe or at the effective level of the latest accepted command, taken unexpired on a trusted clock without a latch; beats and trips put nothing there |
| Interlock.CommandExactly | services/hardware_io/bellasreef_hardware_io/safety.py:388-478 | a command reaches the hardware if and only if the clock is trusted, it has not expired, there is no latch and the driver takes it, and what it then does to level and clock; otherwise nothing changes |
| Interlock.LatchHolds | services/hardware_io/bellasreef_hardware_io/safety.py:480-497 | a latch holds until an operator clears it, and meanwhile the level stays or goes safe |
| Interlock.LatchedSafeStays | services/hardware_io/bellasreef_hardware_io/safety.py:422-424 | safe under a latch stays safe, whatever is commanded |
| Interlock.TimeMovesOn | services/hardware_io/bellasreef_hardware_io/safety.py:347-384 | handling deadlines on time never stops the clock: while no task is due time can pass |
| Interlock.TimePassesExactly | services/hardware_io/bellasreef_hardware_io/safety.py:347-384 | time passes up to the next thing a task has to do and no further |
| Supervisor.InterlockSupervisor.constructor | services/hardware_io/bellasreef_hardware_io/safety.py:197-208 | a supervisor over distinct guards, not yet running, is one its methods can be called on |
| Supervisor.InterlockSupervisor.Start | services/hardware_io/bellasreef_hardware_io/safety.py:263-290 | every guard is driven safe and watched, one that fails is latched and reported; a start of fresh guards in which none fails is an initial state of the machine's runs |
| Supervisor.ActuatorGuard.Note | services/hardware_io/bellasreef_hardware_io/safety.py:459-478 | re-commanding a non-safe level moves no deadline; safe cancels it |
| Supervisor.ActuatorGuard.MarkSafe | services/hardware_io/bellasreef_hardware_io/safety.py:501-511 | a landed safe drive ends the runtime clock |
| Supervisor.ActuatorGuard.Evaluate | services/hardware_io/bellasreef_hardware_io/safety.py:350-369 | the head of the watch loop trips, waits for a beat or waits for the deadline |
| Supervisor.ActuatorGuard.TripAttempt | services/hardware_io/bellasreef_hardware_io/safety.py:518-556 | one round of the trip's retry loop |
| Supervisor.ActuatorGuard.CapReached | services/hardware_io/bellasreef_hardware_io/safety.py:480-490 | the cap latches before it drives |
| Supervisor.ActuatorGuard.CapAttempt | services/hardware_io/bellasreef_hardware_io/safety.py:518-556 | one round of the cap's retry loop |
| Supervisor.InterlockSupervisor.Apply | services/hardware_io/bellasreef_hardware_io/safety.py:388-457 | unknown, clock, expiry, latch and a driver that raises, each exactly when, in that order, and none of them touches a guard; an accepted command puts its effective level on the hardware |
| Supervisor.InterlockSupervisor.Heartbeat | services/hardware_io/bellasreef_hardware_io/safety.py:335-345 | the loop stamps every guard and moves no output |
| Supervisor.InterlockSupervisor.ClearLatch | services/hardware_io/bellasreef_hardware_io/safety.py:492-497 | one latch is cleared and nothing else changes |
| Supervisor.InterlockSupervisor.Stop | services/hardware_io/bellasreef_hardware_io/safety.py:292-331 | the loop drives every guard and reports exactly those that failed |
| PairingStore.SweepIsUnseen | services/api/bellasreef_api/store.py:1289-1333 | sweeping frees aged codes and changes no later answer, except that long-dead requests become unknown |
| Pairing.TurnMoves | services/api/bellasreef_api/app.py:1243-1482 | what any one transaction of any caller may do to the ownership of a client row |
| Pairing.TurnDecides | services/api/bellasreef_api/store.py:198-225 | a decider changes hands only in the transaction that wins it, and was free before |
| Pairing.RunKeepsInv | services/api/bellasreef_api/app.py:1216-1482 | the invariant over all program counters holds after every interleaving |
| PairingResults.RowsAccountedFor | services/api/bellasreef_api/store.py:870-884 | client rows are exactly the grants and the minted-but-undecided ones, and no two callers carry one row |
| PairingResults.QuietTableIsGrants | services/api/bellasreef_api/app.py:1284-1340 | with nobody in flight the table holds the grants alone: every race loser's row is gone |
| PairingResults.LoserIsUnreferenced | services/api/bellasreef_api/store.py:870-884 | the row a loser deletes is referenced by no window or request and was never handed out |
| PairingResults.OneGrantEach | services/api/bellasreef_api/store.py:1273-1285 | over a run each window, each request, the setup code and trust on first use admit at most one client |
| PairingResults.GrantsPersist | services/api/bellasreef_api/store.py:912-927 | a granted row is never deleted |
| PairingResults.StepGrants | services/api/bellasreef_api/store.py:814-846 | trust on first use needs a table without any row, revoked ones included; the setup code needs setup open |
| PairingResults.TofuShutsForEver | services/api/bellasreef_api/store.py:774-785 | after any grant, trust on first use never grants again, whoever is revoked |
| PairingResults.SetupClosesForEver | services/api/bellasreef_api/store.py:198-225 | setup completes once and from then on no setup code admits anyone |
| PairingResults.TokensHandedOnce | services/api/bellasreef_api/app.py:724-744 | no token is handed out twice, and at rest each grant's has been handed out once |
| PairingResults.ApprovedTokenIs | services/api/bellasreef_api/app.py:1460-1482 | an approved token is in exactly one place: with its approver, in the box, or with its holder |
| PairingResults.PollAnswers | services/api/bellasreef_api/app.py:1435-1458 | a poll of an approved request gives its client or 410, and exactly when 410 |
| PairingGap.GapIsReached | services/api/bellasreef_api/app.py:1435-1482 | a reachable state with one caller between decision and hand-over, a poller about to take, no token handed out, and the answer 410 |
| PairingResults.TokenResolvesExactly | services/api/bellasreef_api/store.py:848-868 | a token opens its own client while that has a live row, and nothing else |
| PairingResults.RevokedForEver | services/api/bellasreef_api/store.py:912-927 | a revoked or rolled-back client's token never resolves again |
| PairingResults.ClaimIsUnambiguous | services/api/bellasreef_api/store.py:1387-1419 | a typed code selects at most one claimable request |
| PairingResults.CallersFinish | services/api/bellasreef_api/app.py:1216-1482 | over any run a caller has run at most seven transactions, and has left no more than the rest of the seven, whatever the others do |
| PairingAlone.PairByCodeAlone | services/api/bellasreef_api/app.py:1243-1304 | undisturbed, a setup code is answered with a grant if and only if setup is open, the caller is not throttled and the code is the minted one, and what the tables hold then |
| PairingAlone.PairByWindowAlone | services/api/bellasreef_api/app.py:1306-1345 | the newest open window lets one caller in while it is open, and is used up by it; else the row is taken back |
| PairingAlone.PairWithoutTheCode | services/api/bellasreef_api/app.py:1347-1355 | while a minted code waits, a caller without one is refused |
| PairingAlone.PairOnTrustAlone | services/api/bellasreef_api/app.py:1357-1395 | the first client of all is let in on trust |
| PairingAlone.PairByRequestAlone | services/api/bellasreef_api/app.py:1397-1420 | without a live client there is no approver, without a free code no request, and otherwise the request that is opened |
| PairingAlone.ApproveAlone | services/api/bellasreef_api/app.py:1460-1482 | an approval goes through if and only if the request is pending and within its time, and what it leaves |
| PairingAlone.ClaimAlone | services/api/bellasreef_api/store.py:1387-1419 | which request a code claims, and what a claim is told |
| PairingAlone.LookupSucceeds | services/api/bellasreef_api/store.py:1387-1419 | a code always has a request to find, a claimable one if there is one, or is carried by none |
| PairingAlone.SomeWindowIsNewest | services/api/bellasreef_api/store.py:1258-1271 | among the open windows there is always a newest, or none is open |
| PairingAlone.PollAlone | services/api/bellasreef_api/app.py:1435-1458 | what a poll is told in each state of its request, and that a token is collected once |
| PairingAlone.SweepsExactly | services/api/bellasreef_api/store.py:1289-1333 | what a sweep leaves, row by row |
| PairingAlone.GrantsAreEarned | services/api/bellasreef_api/app.py:1243-1482 | over any run every grant was made in one transaction that found its decider free: setup open, a window unused and in time, no client at all, a request pending |
| PairingAlone.CodeWasShown | services/api/bellasreef_api/app.py:1247-1281 | over any run nobody is let in by a setup code without having shown the one that was minted, unthrottled and with setup open |
| PairingAlone.AnswerIsTrue | services/api/bellasreef_api/app.py:1243-1458 | a caller that was told it is in has its grant, its row and a token that was handed out once |
| PairingAlone.LosersAreTold | services/api/bellasreef_api/app.py:1284-1395 | what a caller that loses its race is told, and that its row is taken back |
| PairingService.Hub.CreateFirstClient | services/api/bellasreef_api/store.py:814-846 | a row is added exactly when there is none |
| PairingService.Hub.Revoke | services/api/bellasreef_api/store.py:912-927 | true exactly for a live client, whose row stays without its hash |
| PairingService.Hub.ClientForToken | services/api/bellasreef_api/store.py:848-868 | a client whose live row carries the token, or none when there is none |
| PairingService.Hub.CompleteSetup | services/api/bellasreef_api/store.py:198-225 | true for the call that latches, which also clears the code |
| PairingService.Hub.OpenWindow | services/api/bellasreef_api/store.py:1258-1271 | the newest unused unexpired window, or none when there is none |
| PairingService.Hub.ConsumeWindow | services/api/bellasreef_api/store.py:1273-1285 | true exactly when the window was there to spend |
| PairingService.Hub.SweepPairing | services/api/bellasreef_api/store.py:1289-1333 | ages pending requests and deletes what is spent, never an approved request or a used window |
| PairingService.Hub.OpenPairingRequest | services/api/bellasreef_api/store.py:1335-1385 | a request is opened exactly when its code is free after the sweep |
| PairingService.Hub.ApprovePairing | services/api/bellasreef_api/store.py:1444-1470 | alone it succeeds exactly for a pending request, and a refusal leaves every table as it was |
| PairingService.Hub.Approve | services/api/bellasreef_api/app.py:1460-1482 | an approval leaves its token in the box and setup complete |
| PairingService.Hub.Poll | services/api/bellasreef_api/app.py:1435-1458 | the token of an approved request is given away once; every other state has its own answer |
| PairingService.Hub.Pair | services/api/bellasreef_api/app.py:1216-1420 | which door a lone caller goes through, in order, and what each leaves in the tables; a row is added exactly when it is granted |
| Overrides.RunKeepsInv | services/control_engine/bellasreef_control_engine/app.py:448-626 | what waking, ticks, other clients and failures keep: a row the engine has seen and no longer holds is closed |
| Overrides.DeadlineNeverMoves | db/bellasreef_db/overrides.py:95-111 | a hold keeps the monotonic deadline of its first arming over any run |
| Overrides.NeverExpiredEarly | services/control_engine/bellasreef_control_engine/app.py:479-523 | the engine closes a hold as expired only after its full remaining time on the monotonic clock, whatever the wall clock did |
| Overrides.DueExactly | db/bellasreef_db/overrides.py:95-111 | a hold is due exactly when it has lasted, on the monotonic clock, what its row still had to run on the wall clock when first seen |
| Overrides.DueStaysDue | services/control_engine/bellasreef_control_engine/app.py:495-523 | a due hold stays due while it is held, through reloads and failed releases, so each later tick retries it, and a try that reaches the store closes the row |
| Overrides.ExpiredByTheEngine | services/control_engine/bellasreef_control_engine/app.py:479-523 | an open row ends as expired by the engine's hand alone |
| Overrides.OneOpenPerTarget | db/bellasreef_db/overrides.py:177-257 | a target never has two unreleased rows |
| Overrides.ReloadMatchesTable | services/control_engine/bellasreef_control_engine/app.py:557-626 | after a reload that could read, what is held is exactly the unreleased rows |
| Overrides.PlacesExactly | db/bellasreef_db/overrides.py:177-257 | what a request puts in the table, field by field, what it closes, and when it puts nothing there |
| Overrides.HoldIsItsRow | services/control_engine/bellasreef_control_engine/app.py:557-626 | over any run a hold is what its row says, field by field, to the deadline of its arming |
| Overrides.HoldIsAsAsked | services/control_engine/bellasreef_control_engine/app.py:557-626 | and what the request that placed it asked for, for as long as it is held |
| Overrides.LapsedExactly | db/bellasreef_db/overrides.py:259-305 | in every state of a run, of the rows open at waking exactly those past their wall deadline then are closed as lapsed: nothing lapses later |
| Overrides.RunAges | db/bellasreef_db/overrides.py:307-329 | rows are closed once and otherwise never change |
| OverrideEngine.ActiveOverride.Arm | db/bellasreef_db/overrides.py:108-111 | the remaining wall time, never negative, becomes the monotonic deadline |
| OverrideEngine.ActiveOverride.IsExpired | db/bellasreef_db/overrides.py:95-106 | the monotonic deadline decides once armed |
| OverrideEngine.OverrideStore.Create | db/bellasreef_db/overrides.py:177-257 | each refusal exactly when, changing nothing; otherwise the row as asked, open, the displaced rows closed and reported, and every other row as it was |
| OverrideEngine.OverrideStore.Release | db/bellasreef_db/overrides.py:307-329 | reports the target exactly when this call closed the row |
| OverrideEngine.OverrideStore.LoadActive | db/bellasreef_db/overrides.py:259-305 | lapses by wall clock, reports what it lapsed and arms each survivor |
| OverrideEngine.ControlEngine.RearmOverrides | services/control_engine/bellasreef_control_engine/app.py:448-477 | the wake step of the machine |
| OverrideEngine.ControlEngine.ExpireOverrides | services/control_engine/bellasreef_control_engine/app.py:479-523 | the loop drops exactly the due holds whose release landed, and keeps those whose release failed |
| OverrideEngine.PassIsRun | services/control_engine/bellasreef_control_engine/app.py:507-520 | what a pass of the loop leaves is what a run of the machine's expiry steps leaves |
| OverrideEngine.ControlEngine.ReloadOverrides | services/control_engine/bellasreef_control_engine/app.py:557-626 | the rebuild keeps the object of every hold already watched; a failed read changes nothing |
| Alerts.BoundAfter | services/control_engine/bellasreef_control_engine/alerts.py:125-154 | a closed bound opens on a breach, an open one closes on a clear, and a change is announced exactly when the state changes |
| Alerts.RefusedExactly | services/control_engine/bellasreef_control_engine/alerts.py:96-108 | which bands are accepted, and what is wrong with the others |
| Alerts.EvaluatesExactly | services/control_engine/bellasreef_control_engine/alerts.py:125-154 | each change an evaluation announces, its value and its threshold, minimum before maximum |
| Alerts.HysteresisRefinesHistory | services/control_engine/bellasreef_control_engine/alerts.py:125-170 | after any history a bound is open exactly when some reading of good quality with a value breached it and none such since reached the clear point |
| Alerts.NeverBothOpenInARun | services/control_engine/bellasreef_control_engine/alerts.py:83-154 | with both bounds set, minimum and maximum are never open together, even if the band moves |
| Alerts.AlertsCostTravel | services/control_engine/bellasreef_control_engine/alerts.py:83-154 | n alerts on one bound mean at least n - 1 clear margins of travel |
| AlertRecord.ReadingKeeps | services/control_engine/bellasreef_control_engine/alerts.py:269-315 | a reading keeps the index and every bound in agreement; where the mirror covers the record it never runs into the index, and where they agree into no error |
| AlertRecord.PoorReadingIsIgnored | services/control_engine/bellasreef_control_engine/alerts.py:157-170 | a reading that is not good, or has no value, or meets no band, changes neither mirror nor record |
| AlertRecord.BreachIsRecordedExactly | services/control_engine/bellasreef_control_engine/alerts.py:269-315 | a breach of a bound the mirror has closed is recorded if and only if none was open on record and no earlier change of the same reading clears an episode that is gone; otherwise the reading's error says which |
| AlertRecord.RunKeepsIndex | db/bellasreef_db/models.py:801-818 | over any run, resyncs overlapping or not, a bound never has two open episodes |
| AlertRecord.FinishKeepsExactly | services/control_engine/bellasreef_control_engine/alerts.py:229-251 | a finishing resync keeps the record covered exactly when no bound relapsed, open at the end and read as closed, and keeps agreement exactly when none bounced |
| AlertRecord.NoRaiseIsLost | db/bellasreef_db/models.py:801-818 | over readings, restarts, overlapping resyncs and band edits, from a state whose mirror covers the record, no raise is lost to the index as long as no finishing resync has a relapsed bound |
| AlertRecord.RelapseLosesRaise | services/control_engine/bellasreef_control_engine/alerts.py:229-251 | when one does, the next breach of that bound ends in an error |
| AlertRecord.BreachesAreRecorded | services/control_engine/bellasreef_control_engine/alerts.py:269-315 | in a run without relapse a breach is on record after its reading, unless that reading is spoiled first |
| AlertRecord.MirrorIsRecord | services/control_engine/bellasreef_control_engine/alerts.py:198-251 | from agreement on, mirror and record agree and no reading fails, until a bound is taken off a band or a resync finishes with a bounced bound, which ends the agreement |
| AlertRecord.RestartRestores | services/control_engine/bellasreef_control_engine/alerts.py:198-208 | after a restart, whatever went before, they agree and no reading fails, on the same terms |
| AlertRecord.ExternalCloses | services/api/bellasreef_api/store.py:1167-1237 | taking bounds off a band closes exactly their open episodes |
| AlertRecord.ResyncExactly | services/control_engine/bellasreef_control_engine/alerts.py:210-251 | after a resync with readings before and after its read, and edits before it, the merged mirror is the record if and only if each bound either had not changed when the record was read, or had, was not closed elsewhere and did not change again |
| AlertRecord.ResyncRestores | services/control_engine/bellasreef_control_engine/alerts.py:210-251 | from a mirror that covers the record, if each bound changes at most once during a resync, it restores the record's answer |
| AlertRecord.LostRaiseRun | services/control_engine/bellasreef_control_engine/alerts.py:222-251 | a run in which a breach clears before the read, is raised again after it, is forgotten by the merge, and the next hot reading violates the index |
| AlertRecord.SpoiledBreachRun | services/control_engine/bellasreef_control_engine/alerts.py:269-315 | a run in which the lower bound is taken off and put back, and a reading that is too hot is not recorded |
| AlertSteps.RunIsWellFormed | services/control_engine/bellasreef_control_engine/alerts.py:269-315 | with writes, notes and merges interleaved, one open episode each, and a reading that moves the mirror's own set asks for nothing it has |
| AlertSteps.ResyncCarries | services/control_engine/bellasreef_control_engine/alerts.py:228-251 | whatever happens meanwhile, a resync merges against the mirror as it was when it began and what the record said when it asked |
| AlertSteps.WritesKeepExactly | services/control_engine/bellasreef_control_engine/alerts.py:294-305 | a write keeps the record covered exactly when the mirror will hear of what it raises, and keeps agreement exactly when the reading's set is still the mirror's |
| AlertSteps.MergesKeepExactly | services/control_engine/bellasreef_control_engine/alerts.py:228-251 | a resync that finishes with a reading halfway keeps cover and agreement exactly when no bound is missed: noted and bounced, or on record, not yet noted, and not seen by the read |
| AlertSteps.NoRaiseIsLost | db/bellasreef_db/models.py:801-818 | over such runs no raise is lost to the index for as long as every raise is heard of |
| AlertSteps.MirrorIsRecord | services/control_engine/bellasreef_control_engine/alerts.py:198-251 | the mirror, once it has caught up, is the record until an edit, a missed bound or a write behind its back, and each of the last two ends it |
| AlertSteps.UndisturbedReading | services/control_engine/bellasreef_control_engine/alerts.py:269-315 | a reading that nothing comes between is the reading as one step |
| AlertSteps.OvertakenRun | services/control_engine/bellasreef_control_engine/alerts.py:228-251 | a run in which a single raise is lost to a resync that finishes between its write and its note |
| AlertEngine.EpisodeStore.RaiseEpisode | db/bellasreef_db/alerts.py:136-152 | an open episode makes it an index violation and nothing is written |
| AlertEngine.EpisodeStore.ClearEpisode | db/bellasreef_db/alerts.py:154-187 | stamps the open episode, or reports that there is none |
| AlertEngine.EpisodeStore.OpenBounds | db/bellasreef_db/alerts.py:113-134 | the open bounds of every device that has one |
| AlertEngine.AlertSupervisor.OnReading | services/control_engine/bellasreef_control_engine/alerts.py:269-315 | no evidence changes and announces nothing; evidence is written before the mirror moves, transition by transition, and an error stops it there |
| AlertEngine.AlertSupervisor.FinishResync | services/control_engine/bellasreef_control_engine/alerts.py:229-251 | the loops compute the machine's three-way merge bound by bound and leave no empty set |
| Nullable.FoldsChoices | scripts/export-openapi.py:64-74 | the nodes that are folded are those that offer null and one object that is a reference or names a type |
| Nullable.FoldsExactly | scripts/export-openapi.py:69-74 | what the folded node holds, key by key |
| Nullable.NormaliseIsClean | scripts/export-openapi.py:39-75 | no such choice is left at any depth |
| Nullable.FailsExactly | scripts/export-openapi.py:58-74 | the rewrite stops with an error exactly when the document offers, anywhere, a choice between null and something that is not an object |
| Nullable.Idempotent | scripts/export-openapi.py:39-75 | rewriting twice is rewriting once, and a document is its own rewrite exactly when it has nothing to fold |
| Nullable.ExportIsIdempotent | scripts/export-openapi.py:39-75 | a rewrite that succeeded succeeds again and changes nothing |
| Nullable.ExportKeepsMeaning | scripts/export-openapi.py:39-75 | input and output accept the same data without null, and with null if no fold does harm to null either, when every fold is harmless in the sense of Nullable.FoldPreservesExactly (JSON Schema Core 2020-12, section 10.2.1.2) |
| Nullable.ExportOfPlain | scripts/export-openapi.py:39-75 | this holds, by shape alone, when no kept branch shares a keyword with its siblings and neither speaks of additional properties where the other names some; with null, when each kept branch only names a type |
| Nullable.FoldPreservesExactly | scripts/export-openapi.py:64-74 | a folded node keeps its meaning on an instance, null or not, exactly when, where the kept siblings hold, kept and overridden keywords ask no more and no less than before |
| Nullable.NullExactly | scripts/export-openapi.py:64-74 | the choice accepts null exactly when its siblings do, the folded node exactly when the siblings it keeps and every kept keyword but a folded type do |
| Nullable.ApartIsHarmless | scripts/export-openapi.py:64-74 | a fold of two sides that are apart does no harm to data other than null, and of a branch that only names a type, to any (JSON Schema Validation 2020-12, section 6.1.1) |
| Nullable.NullableReference | scripts/export-openapi.py:71-72 | a nullable reference becomes the bare reference |
| Nullable.NullableType | scripts/export-openapi.py:73-74 | a nullable plain type becomes the type array of it and null, whatever the type |
| Nullable.SharedKeywordIsLost | scripts/export-openapi.py:70-74 | a node no string satisfies comes to accept all of them |
| Nullable.NamesAreBorrowed | scripts/export-openapi.py:70-74 | an object the node refuses comes to be accepted, although no keyword is shared and no null is involved |
| Nullable.NullOnReferencesExactly | scripts/export-openapi.py:53-72 | a nullable reference accepts null, and afterwards if and only if what it refers to does |
| Nullable.NullIsLostOnReferences | scripts/export-openapi.py:53-72 | a nullable reference to a definition of strings stops accepting null |
| Nullable.NullIsLostOnLists | scripts/export-openapi.py:73-74 | a nullable enumeration that does not list null stops accepting it |
| Registry.RunKeepsInv | services/api/bellasreef_api/store.py:399-708 | no two rows are ever the same hardware, and adopted means bound |
| Registry.KnownHardwareIsMatched | services/api/bellasreef_api/store.py:399-454 | binding known hardware lands on its row whatever id is proposed, adds none, and keeps role, name and location unless it supplies them |
| Registry.CameByBind | services/api/bellasreef_api/store.py:428-540 | a row comes into being only when hardware that no row carries is bound to a free id, or a probe announces itself |
| Registry.HardwareStays | services/api/bellasreef_api/store.py:399-708 | a row goes on carrying its hardware until it is forgotten, so history never forks |
| Registry.ChannelHeldIsUnreachable | services/api/bellasreef_api/store.py:576-638 | readopting never finds the channel held, and succeeds exactly for a detached row |
| Registry.UnadoptThenReadopt | services/api/bellasreef_api/store.py:542-654 | unbinding and re-adding undo each other |
| Registry.GoneByForget | services/api/bellasreef_api/store.py:656-708 | a row leaves the registry only by being forgotten, at a moment when it is neither adopted nor referred to, and after a release if it was adopted |
| Registry.HistoryHasItsRow | services/api/bellasreef_api/store.py:656-734 | calibrations and doses never refer to a row that is gone, so no row comes into being with a history |
| Registry.ChoiceIsLastGiven | services/api/bellasreef_api/store.py:516-538 | while a row is there its role, name and location are what the last renaming, or bind that supplied them, gave; announcements, releases and binds that leave them open never change them |
| Registry.ChoiceIsNeverBlanked | services/api/bellasreef_api/store.py:516-538 | a role or location once set is never blank again, and a name only by being cleared outright |
| Registry.BindIsExact | services/api/bellasreef_api/store.py:428-540 | what a bind finds, makes and overwrites, in the table's terms |
| Registry.DeviceRegistry.BindDevice | services/api/bellasreef_api/store.py:399-540 | matches before it creates, and reports the id it bound |
| Registry.DeviceRegistry.UnadoptDevice | services/api/bellasreef_api/store.py:542-574 | a second call reports that nothing happened |
| Registry.DeviceRegistry.ReadoptDevice | services/api/bellasreef_api/store.py:576-654 | restores a detached row's claim; its last guard is dead code |
| Registry.DeviceRegistry.ForgetDevice | services/api/bellasreef_api/store.py:656-708 | missing, adopted, referenced with counts, or forgotten |
| Registry.DeviceRegistry.SetDisplayName | services/api/bellasreef_api/store.py:1130-1147 | one row's name changes, and the answer says whether there was one |
| SetupThrottle.AtMostTenInAnyWindow | services/api/bellasreef_api/app.py:747-777 | every closed minute holds at most ten recorded failures |
| SetupThrottle.AllowedExactly | services/api/bellasreef_api/app.py:768-774 | an attempt is allowed exactly when the minute that ends now holds fewer than ten |
| SetupThrottle.RecordsExactly | services/api/bellasreef_api/app.py:1253-1266 | what is recorded: the time of a wrong code for which fewer than ten had been in the minute before it |
| SetupThrottle.WaitingSuffices | services/api/bellasreef_api/app.py:768-774 | if no failure is recorded meanwhile, waiting the returned seconds suffices, and no smaller whole number does |
| SetupThrottle.WaitingAmongOthers | services/api/bellasreef_api/app.py:768-777 | whatever other callers do, waiting frees a place, and the attempt is allowed exactly when the failures recorded since leave one over |
| SetupThrottle.WaitingLosesThePlace | services/api/bellasreef_api/app.py:768-777 | ten failures, an answer of 31 seconds, another caller's failure during the wait, and a refusal |
| SetupThrottle.Throttle.AskAt | services/api/bellasreef_api/app.py:768-774 | the pruning loop keeps the recent failures and answers from them |
| SetupThrottle.Throttle.Offer | services/api/bellasreef_api/app.py:1253-1266 | a wrong code is recorded only if the attempt was allowed |

## Left out

- Floating point: duties, levels and seconds are exact reals, so rounding and the clamp against drift are not modelled.
- Time zones and daylight saving: the engine's zone is one fixed offset, and the check that instants carry a zone is not modelled.
- Channel ids: numbered in name order where the source sorts names; the order is all that is used.
- Constructor errors of the scheduler: what it refuses is a precondition of the model's constructor.
- Interlock start-up: the machine's runs begin after a start in which every driver lands; a start that fails for some driver is modelled up to its report (Supervisor.InterlockSupervisor.Start), and registration while running is not.
- Interlock gaps: a driver call and its bookkeeping are one step, so a command cancelled between them, and a write that lands although the driver raises, are not modelled.
- Safety events: their delivery is not modelled; marking a guard safe can cancel the task that was about to send one.
- Agreement between the engine's memory and the hardware: commands in flight and the message spine are not part of this model.
- A publish and its bookkeeping are one step in the scheduler; a tombstone between the decision and the publish is not modelled.
- Crashes and restarts of the API: a caller that dies between two transactions leaves its row, and approved tokens are lost with the process.
- Tokens, hashes and signing: cryptography is replaced by opaque values; authentication of approvers is not modelled.
- Refresh bookkeeping: last-seen times, client names and audit events are not modelled.
- Pairing-code candidates: the random draw is an argument, and a draw already in play is the failed insert.
- Override audit trail: a manual release that races an expiry may be audited twice, so nothing is claimed about how often.
- Override reads: a reload's read and rebuild are one step.
- Alert delivery and the silence alerts: publishing, the silence watcher and its deadline are not modelled.
- Alert readings: they arrive one after another, as one subscription delivers them; two readings halfway at once are not modelled.
- Schema keywords whose meaning depends on siblings other than properties and additionalProperties are read each by itself.
- Nullable.ExportKeepsMeaning: asks that every fold in the document be harmless to every instance, since one that is not changes what its node accepts; the exact condition, per node and instance, is Nullable.FoldPreservesExactly.
- Scheduler.Arrives: asks that the channel be on its way, outside the deadband or due a refresh, since a quiet residual inside the deadband waits for the refresh (Scheduler.RefreshArrives); so does Scheduler.ComesToRest.
- Registry columns: thresholds and the actuator's safety limits belong to other parts and are not in the model's row.
- Registry endpoint checks: capability lookups, the double-bind refusal for actuators and the announcement of assignments are not modelled.
- A history row that lands between the count and the delete of a device: transactions are serial here.
- Schedule storage, assignments, backups, streaming, metrics and views: they would add only easier members.
