# conMon: a verified model of its in-memory protocols

conMon probes network targets and turns the results into status changes, alerts and live updates. This project models
the four components that hold state in memory and proves properties of all their runs.

- The target state machine with its flap tracker (`internal/fsm`). `TargetMachine` says what one call does to one target,
  `Runs` what any sequence of calls does, to one target and to the map of many; `Fsm` and `FlapTracking` are the classes,
  which update their objects and maps in place and carry a ghost record of every call, tied by `Valid` to those runs. The
  theorems about runs are in `FlapLog`, `FlapStorm`, `Hysteresis`, `EventLog`, `Maintenance`, `Records` and `Latency`.
- The scheduler (`internal/probe/probe.go`). `TimerProtocol` is the step system: Add, Remove, Stop, a timer that expires, a
  probe that comes back, in any order; `Scheduling` is the class whose methods are those steps. `Rescheduling`
  tells when the probes of a target start, and `Detection` puts the scheduler and the state machine together and bounds
  the time to detection.
- The alert engine (`internal/alerter/engine.go`). `Throttle` and `Alerts` are the functions, `AlertRuns` says what any
  interleaving of calls leads to, and `AlertEngine` is the class, tied by `Valid` to those runs; `Pipeline` relates rules
  to the events of the state machine.
- The broadcast hub (`internal/api/ws.go`). `HubProtocol` is the step system of concurrent broadcasts, subscriptions and
  departures; `BroadcastHub` is the class whose methods, run by themselves, are runs of it.

Instants and durations are integers in nanoseconds, latencies and loss ratios are reals. The clock (`time.Now`), results
of probes, the identifiers of alerts and the target that `getTarget` finds are parameters. Go's truncating division and
float-to-integer conversion are `Model.TruncDiv` and `Model.TruncReal`.

Where the code does something else than its documentation leads one to expect, the model follows the code:

- A target that has never answered stays UNKNOWN and never goes to DOWN (`EventLog.NoSuccessNoEvent`), although the
  repository's README.md describes DOWN as the outcome of consecutive failures without that exception.
- Every probe of a FLAPPING target records another change, so that fast polling alone keeps a target FLAPPING whatever the
  outcomes (`FlapStorm.FlappingPersists`).
- The end of a maintenance window does not end MAINTENANCE; only silencing and then un-silencing, or removal, does
  (`EventLog.LeavingQuiet`). A maintenance window also swallows SILENT (`EventLog.SilenceLasts`).
- Stop and Remove leave a timer running when a target was updated while its probe was in flight
  (`TimerProtocol.StopAndRemoveCanMissATimer`); `TimerProtocol.StopIsFinal` and `TimerProtocol.RemoveIsFinal` give the
  exact conditions under which they end all probing.
- Any rule condition other than the four that the engine knows fires on every status change (`Pipeline.ConditionsOverRuns`),
  among them the expressions that the repository's README.md gives as examples.
- ResolveByTarget never touches an acknowledged alert (`Alerts.FateOfAlert`).
- Two pairs of target and rule can share a throttle key (`Throttle.KeysCanCollide`). They do exactly when one identifier
  is the other followed by ":" and some s, and the rule name of the other is s and ":" followed by that of the one
  (`Throttle.KeysCollideExactly`); this takes a colon in an identifier and in a rule name too.
- Unsubscribing a channel a second time panics (`HubProtocol.UnsubscribingTwicePanics`); handleWS, the only caller,
  unsubscribes each channel once.

`dafny verify dfyconfig.toml` checks the whole project.

## Model

| member | source | states |
|---|---|---|
| FlapLog.DropBeforeSplits | internal/fsm/flap.go:47-59 | trimming splits the entries in two: what is dropped all lies before the cutoff, and what is kept begins at or after it |
| FlapLog.DropBeforeTwice | internal/fsm/flap.go:47-59 | trimming with two cutoffs, in either order and for unsorted entries too, is trimming once with the later one; in particular it is idempotent |
| FlapLog.WindowRefinesLog | internal/fsm/flap.go:23-59 | for any order of timestamps: dropped followed by kept is the full log of records, and nothing at or after (latest instant seen - window) is ever dropped |
| FlapLog.CountIsExact | internal/fsm/flap.go:31-38 | for non-decreasing timestamps a count equals the number of logged entries in [now - window, now], both ends included |
| FlapTracking.FlapTracker.constructor | internal/fsm/flap.go:15-21 | a new tracker has seen nothing |
| FlapTracking.FlapTracker.Trim | internal/fsm/flap.go:47-59 | the loop drops exactly the leading entries before the cutoff, one iteration for each |
| FlapTracking.FlapTracker.Record | internal/fsm/flap.go:23-29 | the target's history becomes its trimmed history with the new instant at the end; other targets are untouched, and the history stays what the window keeps of all operations |
| FlapTracking.FlapTracker.Count | internal/fsm/flap.go:31-38 | trims, and returns the number of entries left; when time has not run backwards that is the number of all records in the window |
| FlapTracking.FlapTracker.Remove | internal/fsm/flap.go:40-45 | the target's history is gone, that of others is untouched |
| FlapTracking.TrimmingIsAmortised | internal/fsm/flap.go:23-59 | after any calls, the steps that all trimming loops have taken for a target and the entries still kept add up to the number of its records, so that the steps never outnumber the records |
| TargetMachine.DegradedExactly | internal/fsm/fsm.go:233-252 | a success is degraded exactly when its latency reaches a whole millisecond above the threshold in force, or its loss exceeds the loss threshold in force |
| Runs.FlapsAreKept | internal/fsm/fsm.go:98-105 | at any point of any run the target's flap entries are what the window keeps of the recorded changes |
| Runs.FlapCountIsExact | internal/fsm/fsm.go:98-105 | the flap count compared with the threshold is the number of all changes ever recorded for the target that lie in the window |
| Runs.MultiTargetProjection | internal/fsm/fsm.go:54-195 | in any interleaving of calls about many targets, each has the state, flap entries and events of a run of its own calls alone |
| Fsm.TargetState.constructor | internal/fsm/fsm.go:184-196 | a new target is UNKNOWN since now, with no certificate known |
| Fsm.TargetState.Observe | internal/fsm/fsm.go:60-80 | a result moves the counters, instants, average and certificate, whatever the status |
| Fsm.FSM.constructor | internal/fsm/fsm.go:43-50 | a new machine knows no target and has emitted nothing |
| Fsm.FSM.GetOrCreate | internal/fsm/fsm.go:184-196 | returns the registered state object of the target, a new one if there was none, and changes no other |
| Fsm.FSM.Process | internal/fsm/fsm.go:52-136 | the target's state, flap entries and the returned event are those of the run of all calls so far; every other target is unchanged; changed is true exactly when there is an event |
| Fsm.FSM.Transition | internal/fsm/fsm.go:82-136 | maintenance before silence before derivation before the flap threshold, updating only this target's state and flap entries |
| Fsm.FSM.RecordFlap | internal/fsm/fsm.go:98-105 | records and counts in the tracker, for this target only |
| Fsm.FSM.Commit | internal/fsm/fsm.go:111-135 | commits the status with its predecessor and instant, and builds the event from the state before |
| Fsm.FSM.SetSilent | internal/fsm/fsm.go:150-160 | silences; un-silences to UNKNOWN from SILENT only; emits nothing and changes no other target |
| Fsm.FSM.Remove | internal/fsm/fsm.go:174-180 | forgets the target's state and flap entries and no other's |
| Fsm.FSM.GetState | internal/fsm/fsm.go:138-148 | returns a copy of the state, or nothing for a target never heard of |
| Fsm.TargetFaresAlone | internal/fsm/fsm.go:54-195 | for any machine object after any calls: each target's state and events are those of its own calls alone, and every target with flap history has a state |
| FlapStorm.EventsAreRecorded | internal/fsm/fsm.go:98-115 | no window holds more events than recorded changes |
| FlapStorm.EventStormBound | internal/fsm/fsm.go:98-115 | in any run without removal and with non-decreasing timestamps, a closed window of the flap window's length holds at most flapThreshold events, plus one for each pair of successive probes in it between which the target was un-silenced |
| FlapStorm.ThresholdEventFlaps | internal/fsm/fsm.go:98-105 | an event that finds flapThreshold - 1 others before it in its window goes to FLAPPING |
| FlapStorm.FlappingExit | internal/fsm/fsm.go:95-115 | a probe outside maintenance leaves FLAPPING if and only if fewer than flapThreshold - 1 earlier recorded changes lie in the window; it goes to UP on a success run of the recovery threshold over the whole history and to DOWN otherwise, and emits an event |
| FlapStorm.FlappingPersists | internal/fsm/fsm.go:95-109 | when the last flapThreshold - 1 records and all later probes are at most g apart and (flapThreshold - 1) * g fits the window, the target stays FLAPPING whatever the outcomes |
| Hysteresis.CountersAreTrailingRuns | internal/fsm/fsm.go:62-73 | in every status the counters are the lengths of the trailing runs of failures and successes in the whole history |
| Hysteresis.TrailingIsLongestRun | internal/fsm/fsm.go:62-73 | a counter is at least n exactly when the last n outcomes are all equal |
| Hysteresis.ThresholdsSeparate | internal/fsm/fsm.go:198-231 | in every reachable state, UP and DEGRADED have fewer failures in a row than the down threshold, DOWN fewer successes than the recovery threshold |
| Hysteresis.ThresholdsAreExact | internal/fsm/fsm.go:198-228 | where d and r are the target's own thresholds if positive and the configured ones otherwise: UP or DEGRADED goes to DOWN on exactly the d-th failure in a row and on no other, DOWN to UP on exactly the r-th success |
| Hysteresis.StatusRefinesHistory | internal/fsm/fsm.go:198-231 | without silence, maintenance and flapping: DOWN if and only if some run of d failures after the first success ends later than every run of r successes; UNKNOWN if and only if there was no success; DEGRADED if and only if the last result is degraded, not the first success, and the target was not DOWN |
| EventLog.EventsFollowGraph | internal/fsm/fsm.go:82-115 | every event of every run, for all thresholds, is an edge of the transition graph |
| EventLog.NoSuccessNoEvent | internal/fsm/fsm.go:208-213 | a target that has not answered since it was created emits nothing and is UNKNOWN, SILENT or in MAINTENANCE |
| EventLog.LeavingQuiet | internal/fsm/fsm.go:82-93 | SILENT and MAINTENANCE are left if and only if the call removes the target or un-silences it from SILENT; the target is then UNKNOWN, and nothing is emitted |
| EventLog.QuietStays | internal/fsm/fsm.go:62-93 | no number of results ends a quiet state or emits an event, while the counters still follow the whole history |
| EventLog.SilenceLasts | internal/fsm/fsm.go:82-93 | a silenced target that only gets results is SILENT as long as none falls strictly between the start and the end of its window, and in MAINTENANCE from then on |
| Maintenance.MaintenanceExactly | internal/fsm/fsm.go:82-88 | a target is in MAINTENANCE if and only if one of its results fell strictly between the start and the end of its window and it was neither silenced nor removed since; such a result emits nothing |
| Maintenance.WindowsLeaveNoTrace | internal/model/model.go:129-135 | over any run, a window makes no difference to the state or the events for a result at or before its start, or at or after its end |
| EventLog.LogReplays | internal/fsm/fsm.go:107-135 | each event starts from the status to which the log before it replays, and the log replays to the status of every awake target |
| EventLog.NextEventFollowsPrevious | internal/fsm/fsm.go:107-135 | an event starts where the previous one ended, or from UNKNOWN when an un-silencing or a removal came between |
| EventLog.DurationsTelescope | internal/fsm/fsm.go:111-126 | across silence and maintenance, the durations of k events add up to the time from the first to the last, within less than k - 1 milliseconds; for non-decreasing timestamps they never exceed it |
| Records.StateRecordsRun | internal/fsm/fsm.go:52-136 | in every reachable state the instants, the certificate days, the previous status and the flap count are the latest of what they record, whatever came in between |
| Records.EventTellsItsProbe | internal/fsm/fsm.go:111-135 | an event has the type status_changed, carries the data of its probe, the two statuses of the run and the two trailing run lengths, and tells to the millisecond how long the earlier status had lasted, since the event before or the creation of the target |
| Latency.WeightsTotalOne | internal/fsm/fsm.go:261-267 | the weights of n samples total one |
| Latency.AverageIsWeightedSum | internal/fsm/fsm.go:67-69 | the average is the weighted sum of all positive latencies of successes, and zero if and only if there has been none |
| Latency.AverageWithinSamples | internal/fsm/fsm.go:261-267 | the average lies between the least and the greatest sample |
| Latency.AverageConverges | internal/fsm/fsm.go:261-267 | after n more samples of constant c the distance from c is 0.9 to the n of what it was |
| TimerProtocol.ExecWellFormed | internal/probe/probe.go:89-182 | in every interleaving exactly the registered targets have a registered handle, and a pending registered handle is for its own target |
| TimerProtocol.ChainsAreBounded | internal/probe/probe.go:89-182 | in every interleaving a target has at most 1 + (number of Adds of it while a probe of it was in flight) chains |
| TimerProtocol.ChainSurvives | internal/probe/probe.go:89-182 | in every interleaving a target that is registered and not stopped since its last Add has a chain |
| TimerProtocol.ExactlyOneChain | internal/probe/probe.go:89-182 | a target only added while idle has exactly one chain |
| TimerProtocol.StopIsFinal | internal/probe/probe.go:113-120 | after Stop no probe starts until the next Add if and only if every pending timer was a registered one and no probe of a registered target was in flight |
| TimerProtocol.StopWhenIdleIsFinal | internal/probe/probe.go:113-120 | where targets are only added while idle, that condition holds whenever nothing is in flight |
| TimerProtocol.RemoveIsFinal | internal/probe/probe.go:102-111 | after Remove no probe of the target starts until its next Add if and only if every pending timer of it was the registered one |
| TimerProtocol.RemoveWhenAddedIdleIsFinal | internal/probe/probe.go:102-111 | a target only added while idle meets that condition at all times, even with a probe in flight |
| TimerProtocol.StopAndRemoveCanMissATimer | internal/probe/probe.go:89-182 | nothing in flight is not enough for either: for every target there is a run after which both miss a timer |
| Scheduling.Scheduler.constructor | internal/probe/probe.go:78-87 | a new scheduler has no targets and no timers |
| Scheduling.Scheduler.AfterFunc | internal/probe/probe.go:124-128 | a new pending timer under a new handle, due at once for a delay that is not positive |
| Scheduling.Scheduler.StopTimer | internal/probe/probe.go:95-97 | removes a timer that is still pending, and has no effect on one that has expired |
| Scheduling.Scheduler.Add | internal/probe/probe.go:89-100 | stops the registered timer and registers the target with a new one; is the Add step of the protocol |
| Scheduling.Scheduler.Remove | internal/probe/probe.go:102-111 | stops the registered timer and forgets the target; is the Remove step |
| Scheduling.Scheduler.Stop | internal/probe/probe.go:113-120 | the loop stops exactly the registered timers and keeps both maps; is the Stop step |
| Scheduling.Scheduler.Expire | internal/probe/probe.go:122-128 | a pending timer turns into a probe in flight |
| Scheduling.Scheduler.Complete | internal/probe/probe.go:130-182 | a probe comes back, and its target is rescheduled unless it has been removed |
| Scheduling.Scheduler.Reschedule | internal/probe/probe.go:163-182 | the next timer is due after the interval, or after max(interval / 2, 5 s) following a failure, and overwrites the registered handle |
| Detection.PhaseStep | internal/probe/probe.go:122-182 | whatever other targets and other chains do, a chain of a target alternates between waiting and flying, with the prescribed deadlines; an only chain stays the only one |
| Rescheduling.ChainKeepsSchedule | internal/probe/probe.go:122-182 | whatever else goes on, the probes of a chain come back one by one, and the next one starts exactly one interval after a success and exactly max(half an interval, 5 s) after a failure |
| Rescheduling.AddedTargetKeepsSchedule | internal/probe/probe.go:89-182 | after any run, a target that is added is first probed exactly one interval later and keeps that schedule until it is added again, removed or stopped; added only while idle, these are all its probes |
| Detection.ChainProbesCurrentTarget | internal/probe/probe.go:89-182 | a target only added while idle is probed as it was last added, never in an earlier version |
| Detection.CurrentChainSurvives | internal/probe/probe.go:89-182 | in every interleaving a target that is registered and not stopped since its last Add has a chain that carries it as it was last added |
| Detection.RunKeepsTimersNear | internal/probe/probe.go:98-182 | in every interleaving a pending timer is due no later than max(I, 5 s) from now, I being its target's interval |
| Detection.PhaseOfRun | internal/probe/probe.go:89-182 | at the end of any run in which the target was not stopped since its last Add, a chain that carries it as it stands is in such a phase, at most max(I, 5 s) away from its next probe, whatever the interval; it is the only chain if the target was only added while idle |
| Detection.DetectionFromPhase | internal/probe/probe.go:122-182 | once one chain is in such a phase, whatever other chains there are, a target in service all of whose probes fail is DOWN or FLAPPING when the detection time is over |
| Detection.DetectionBound | internal/probe/probe.go:89-182 | after any run of the scheduler in which the target was not stopped since its last Add, with any number of chains of it: if it is in service under fixed thresholds and the probes started from s on all fail, outside maintenance, it is DOWN or FLAPPING at any time after s + 2P + max(I, 5 s) + (d - 1)(max(I / 2, 5 s) + P) |
| Throttle.StampIsLatest | internal/alerter/engine.go:99-108 | the stamp kept under a key is that of the latest accepted attempt on it |
| Throttle.ThrottleStaysAhead | internal/alerter/engine.go:99-108 | the k-th accepted attempt comes no later than the k-th of any separated choice of attempts |
| Throttle.ThrottleIsOptimal | internal/alerter/engine.go:94-113 | the accepted attempts are themselves separated by the throttle, and no separated choice of attempts is larger |
| Throttle.ThrottleSpacing | internal/alerter/engine.go:99-108 | stamps are at least the throttle apart, and a closed interval of length D holds at most D / throttle + 1 |
| Throttle.KeysCollideExactly | internal/alerter/engine.go:100 | two pairs of target and rule have the same key if and only if they are equal or overlap at a colon, one way or the other |
| Throttle.OverlapMeans | internal/alerter/engine.go:100 | an overlap means that one identifier is the other with ":" and some s behind it, and the rule name of the other is that of the one with s and ":" in front |
| Throttle.KeysInjectiveExactly | internal/alerter/engine.go:100 | for any identifiers and rule names, different pairs of them have different keys if and only if no two overlap |
| Throttle.ColonFreeKeysAreInjective | internal/alerter/engine.go:100 | they have when no identifier contains a colon, and also when no rule name does |
| Throttle.KeysCanCollide | internal/alerter/engine.go:100 | with colons in both, different pairs can have the same key |
| Throttle.KeysAreIsolated | internal/alerter/engine.go:99-108 | which attempts on a key are accepted, and the stamp they leave, do not depend on the attempts on other keys |
| Alerts.EventsAttemptByRules | internal/alerter/engine.go:94-108 | each attempt an event causes carries the key and the throttle of one of the rules |
| Alerts.DistinctNamesOneThrottle | internal/alerter/engine.go:94-108 | with distinct rule names and no overlap among the pairs, in any interleaving, all attempts for one target and rule go by that rule's throttle |
| Alerts.ColonFreeTargetsOneThrottle | internal/alerter/engine.go:94-108 | so they do when no identifier contains a colon |
| Alerts.ColonFreeRulesOneThrottle | internal/alerter/engine.go:94-108 | so they do when no rule name contains a colon, for identifiers such as host:port too |
| AlertRuns.PairFaresAlone | internal/alerter/engine.go:87-114 | with distinct rule names and no overlap among the pairs, however the rules' turns in concurrent calls interleave: the attempts and the alerts of a target and a rule are those that the events of the target which the rule matches lead to by themselves |
| AlertRuns.AlertsAreOptimal | internal/alerter/engine.go:87-114 | under the same conditions the alerts of a target and a rule are built from an optimal choice of those events: separated by the throttle, none larger, and at most D / throttle + 1 stamps in a closed interval of length D |
| AlertRuns.UnthrottledAlertsAll | internal/alerter/engine.go:94-113 | under the same conditions a rule without a throttle raises an alert for every event that it matches |
| AlertRuns.AlertsComeFromTurns | internal/alerter/engine.go:188-235 | over any interleaving every alert comes from a turn of a rule that matches the event; it is firing, carries the rule's channels and severity (ERROR for DOWN and WARN otherwise where the rule has none), and escalates after the rule's delay if that is positive |
| AlertEngine.StoredAlertsAreOptimal | internal/alerter/engine.go:87-142 | for any engine object after any calls: so are the alerts it has stored |
| AlertEngine.StoredAlertFate | internal/alerter/engine.go:116-142 | for any engine object after any calls: an alert not stored again under its identifier was raised firing by such a turn, and is now acknowledged, resolved or firing by what came after it alone |
| Alerts.FateOfAlert | internal/alerter/engine.go:116-142 | an alert is acknowledged for good once acknowledged, otherwise resolved by the first later Resolve of its target, otherwise firing; its resolution time is that of the first Resolve before any acknowledgement; nothing else about it changes |
| Alerts.ResolvedUnlessAcked | internal/alerter/engine.go:131-142 | without an acknowledgement an alert is unresolved if and only if its target has seen no Resolve |
| AlertEngine.Engine.constructor | internal/alerter/engine.go:63-85 | a new engine has no stamps and no alerts |
| AlertEngine.Engine.Process | internal/alerter/engine.go:87-114 | attempts, one for each matching rule in order, and stored alerts, one for each accepted attempt; nothing at all when the target is missing |
| AlertEngine.Engine.ProcessRule | internal/alerter/engine.go:95-112 | one turn of the loop: match, throttle, build, store |
| AlertEngine.Engine.CheckAndStamp | internal/alerter/engine.go:100-108 | check and stamp as one step, keeping the stamps those of all attempts so far |
| AlertEngine.Engine.StoreAlert | internal/alerter/engine.go:237-241 | the alert is found under its identifier, all others as before |
| AlertEngine.Engine.AckAlert | internal/alerter/engine.go:116-129 | acknowledges exactly the named alert, and reports a missing one |
| AlertEngine.Engine.ResolveByTarget | internal/alerter/engine.go:131-142 | resolves exactly the firing alerts of the target, all at the same time |
| Pipeline.RecoveriesFollowOutages | internal/alerter/engine.go:160-173 | over any run of a target, a recovery rule never matches more often than an outage rule has, and less often while the target is DOWN |
| Pipeline.ConditionsOverRuns | internal/alerter/engine.go:160-186 | over any run and for every event of it: a rule without a condition never matches, the two DOWN and the two UP conditions match what they say, and any other condition matches every event |
| HubProtocol.HubNeverSendsToClosed | internal/api/ws.go:34-62 | in every interleaving, however often channels are unsubscribed, no send reaches a closed channel |
| HubProtocol.ClosingsBalance | internal/api/ws.go:43-49 | the calls of Unsubscribe for a channel that have got past the lock are those that have closed it and those about to; it is closed once there is one of the former |
| HubProtocol.ClosingPanicsExactly | internal/api/ws.go:43-49 | in every interleaving, closing panics if and only if some channel is closed for a second time |
| HubProtocol.UnsubscribingTwicePanics | internal/api/ws.go:34-62 | nothing panics when each channel is unsubscribed at most once; when all calls of Unsubscribe have run to their end, closing has panicked if and only if some channel had more than one |
| HubProtocol.DeliveryInOrder | internal/api/ws.go:51-62 | received plus queued is a subsequence, in order, of what was offered; the queue never exceeds 32; only a full queue loses a message, and one that never was full loses none |
| HubProtocol.FirstMessagesAreKept | internal/api/ws.go:34-62 | a client that was offered at most 32 messages since it subscribed has lost none, whatever it has read; one that has read nothing holds exactly the first 32 offered |
| HubProtocol.BroadcastReachesAll | internal/api/ws.go:51-62 | when a broadcast ends, among any others in progress, it has been put exactly once to every client and to no other channel |
| HubProtocol.OffersCarryTheirMessage | internal/api/ws.go:51-62 | in every interleaving, what a broadcast offers to a client is the message of that broadcast |
| BroadcastHub.Hub.constructor | internal/api/ws.go:29-32 | a new hub has no clients |
| BroadcastHub.Hub.Subscribe | internal/api/ws.go:34-41 | registers a new open channel; is the Subscribe step |
| BroadcastHub.Hub.Unsubscribe | internal/api/ws.go:43-49 | takes the channel off the register and then closes it, keeping what is queued; panics if and only if it was closed already |
| BroadcastHub.Hub.Broadcast | internal/api/ws.go:51-62 | the loop pushes to every client whose queue is not full, and touches no other channel |
| BroadcastHub.Hub.Offer | internal/api/ws.go:55-61 | one turn of the loop is a Pick and a Send of the protocol |
| BroadcastHub.Hub.Receive | internal/api/ws.go:104-113 | the client takes the oldest message |

## Left out

- Detection.DetectionBound: assumes that a timer fires at the instant it is due and that the handler takes no time, because the code has no bound for either.
- AlertRuns.PairFaresAlone: takes a turn of a rule as one step, although an alert is stored after the lock of the throttle is released; the order in which the alerts of concurrent turns come to be stored is not modelled.
- Message text, event and result identifiers, and log output; alert titles and bodies; EventID and escalation level of an alert: they carry no behaviour.
- Fields of TargetState that the state machine never writes (P99LatencyMs, PacketLossPct, Availability7d, SuppressedBy).
- AllStates and ListAlerts, which copy what the maps hold.
- The protocol probers, and the branch of runOnce for a protocol without a prober, which to the scheduler is a failed probe without a result; the Executor, to which the scheduler never submits anything.
- Mutation of a Target by its owner after it was added: a target is a value here, so a chain goes on with the values it was started with.
- The dispatch of notifications and their templates, the SQLite store, the HTTP routes, the command line and the configuration.
- Overflow of 64-bit durations and floating-point rounding.
- Agreement of the snapshot that handleWS sends with the updates that follow: the code takes it before it subscribes.
- Progress: that a waiting lock is granted in the end, or that a due timer fires at all.
