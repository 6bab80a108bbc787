# Traffic alert engine — a Dafny model

This project models the core of a commute traffic-alert service. Users register trips with
an origin, a destination, days of the week, a departure window and an alert threshold (so
many minutes of delay, or so many percent slower). The engine does the following:

- It computes candidate routes for a trip and applies simulated traffic to them.
- It runs monitoring jobs that poll the routes every two minutes, at most fifteen times.
- It raises an alert the first time a route breaches the trip's threshold.
- Behind a per-trip, per-road cooldown and the user's quiet hours, it records the alert and
  attempts delivery.
- An orchestrator starts jobs for trips entering their window and forgets finished jobs.

Around the engine sit three in-memory stores: users, trips and alerts. They come with the
request validators, an input sanitiser and a sliding-window rate limiter. The model also
covers the uptime formatter of the status endpoint.

The modules follow the services:

- `Monitoring`: the monitoring scheduler.
- `Notifications`: the alert store, cooldown and delivery gate.
- `TrafficSim` and `RouteProvider`: the traffic simulator and the route provider.
- `Trips` and `Users`: the two stores.
- `Validation`: the request validators, the sanitiser and the rate limiter.
- `Orchestration`: the coordinator.
- `Uptime`: `formatUptime`.

Shared pieces live in their own modules:

- `Types`: the records and `Math.round`.
- `OrderedMaps`: a JavaScript `Map` with its insertion order.
- `Text`: `trim`, `toLowerCase`, `includes`, string order and decimal text.
- `Clock`: "HH:MM" texts.
- `Sorting`: the stable newest-first sort.
- `Wrappers`: `Option` and `Result`.

Services whose fields the code updates in place are classes. Their methods say, in `ensures`
clauses, what they return and what their new state is. Validators, formatters and queries
are functions.

Modelling conventions:

- Every `Math.random()` draw is a parameter in [0, 1).
- The current time is a parameter: milliseconds, a minute of the day, a weekday.
- Timers are explicit methods: `CompleteFirstPoll`, `Tick` and `PeriodicTick`.
- `uuid` is a counter behind a fixed prefix (`job-3`, `user-0`). Distinct counters give
  distinct ids.
- Severities, percentages and the uptime are `real`. `Math.round(x)` is `(x + 0.5).Floor`.
  JavaScript's truncating `%` is written out (`Uptime.JsMod`).

Where the code and its documentation differ, the model follows the code:

- `validateTripData` treats a coordinate of 0 as missing (src/services/tripService.ts:148).
  So a location on the equator or the prime meridian is rejected.
- `validateTimeFormat` accepts a one-digit hour such as `1:30`
  (src/services/userService.ts:271-276; see `Users.TimeFormatExamples`).
- The third quiet-hours check of `validateSettings` (src/services/userService.ts:310-312)
  tests `start` again, which the check at 302-304 already tests. So it can never be the one
  that fails.
- The schedule query compares "HH:MM" texts as strings, and `subtractMinutes` wraps past
  midnight. So a window starting before 00:30 is never due when its end comes before the
  wrapped start (`Trips.EarlyWindowNeverDue`). The model keeps this behaviour.
- Jobs are stored RUNNING from the start, never PENDING. Only a failure of the initial route
  computation reaches the caller of `startMonitoring`. `stopMonitoring` turns any status,
  FAILED included, into COMPLETED.

## Model

| member | source | states |
|---|---|---|
| Monitoring.JobIdInjective | src/services/trafficMonitoringService.ts:14 | distinct job counters give distinct job ids |
| Monitoring.Breaches | src/services/trafficMonitoringService.ts:157-166 | the per-route threshold test; its meaning is stated by `ThresholdBoundaries` and `ShouldTriggerAlert` |
| Monitoring.BreachReason | src/services/trafficMonitoringService.ts:160-174 | the reason text; its meaning is stated by `ReasonMentions` |
| Monitoring.ShouldTriggerAlert | src/services/trafficMonitoringService.ts:149-180 | no trigger exactly when no route breaches the threshold; otherwise the first breaching route in list order, with the reason text for that route |
| Monitoring.ThresholdBoundaries | src/services/trafficMonitoringService.ts:157-166 | breaching is inclusive: a 600 s delay meets a 10-minute threshold, 599 s does not; 25.0 % meets a 25 % threshold, 24.9 % does not |
| Monitoring.ReasonMentions | src/services/trafficMonitoringService.ts:157-176 | the alert reason names the route, and keeps every lower-case word of the route's incident text |
| Monitoring.PushRecent | src/services/trafficMonitoringService.ts:223-232 | the display buffer puts the new alert at index 0, keeps the older ones in order after it, and never holds more than 10 |
| Monitoring.FilterRunning | src/services/trafficMonitoringService.ts:92-94 | keeps exactly the RUNNING jobs of the list; a single job is kept exactly when it is RUNNING |
| Monitoring.FilterRunningAppend | src/services/trafficMonitoringService.ts:92-94 | the filter distributes over concatenation, so the RUNNING jobs keep their order and their number of occurrences |
| Monitoring.TrafficMonitoringService.constructor | src/services/trafficMonitoringService.ts:6-11 | a scheduler with no jobs, no histories, no timers and an empty display buffer |
| Monitoring.TrafficMonitoringService.GetMonitoringJob | src/services/trafficMonitoringService.ts:88-90 | the stored job, or none exactly when the id is unknown |
| Monitoring.TrafficMonitoringService.GetActiveJobs | src/services/trafficMonitoringService.ts:92-94 | exactly the stored jobs whose status is RUNNING, and the result is the filter of the stored jobs in insertion order |
| Monitoring.TrafficMonitoringService.GetAlertHistory | src/services/trafficMonitoringService.ts:96-98 | the trip's own alert list, or empty for a trip with none |
| Monitoring.TrafficMonitoringService.GetSystemStatus | src/services/trafficMonitoringService.ts:240-254 | the number of stored jobs whose status is RUNNING, the summed length of all alert histories, and the simulator's current conditions |
| Monitoring.TrafficMonitoringService.GetCurrentTrafficStatus | src/services/trafficMonitoringService.ts:69-86 | one route per candidate, each the candidate with the simulator's current traffic applied |
| Monitoring.TrafficMonitoringService.StartMonitoring | src/services/trafficMonitoringService.ts:13-46 | a fresh job id; on success the job is stored RUNNING with the initial routes, alertSent false, awaiting its first poll; on failure it is stored FAILED and the error is returned; nothing else changes |
| Monitoring.TrafficMonitoringService.StartFailed | src/services/trafficMonitoringService.ts:40-45 | a failed start stores the job FAILED under the fresh id, with no trip, poll count or pending poll; nothing else changes |
| Monitoring.TrafficMonitoringService.StartRunning | src/services/trafficMonitoringService.ts:13-39 | a successful start stores the job RUNNING under the fresh id with the initial routes and alertSent false, records its trip with no polls counted and marks its first poll pending; nothing else changes |
| Monitoring.AddFailedKeepsInv | src/services/trafficMonitoringService.ts:25 | the next job id is not taken, and storing a FAILED job under it keeps the scheduler invariant |
| Monitoring.AddRunningKeepsInv | src/services/trafficMonitoringService.ts:13-39 | the next job id is not taken, and storing a RUNNING job under it, with its trip, no polls and its first poll pending, keeps the scheduler invariant |
| Monitoring.TrafficMonitoringService.StopMonitoring | src/services/trafficMonitoringService.ts:48-67 | false and no change for an unknown id; otherwise the timer is dropped, the status becomes COMPLETED whatever it was, and true is returned |
| Monitoring.TrafficMonitoringService.Poll | src/services/trafficMonitoringService.ts:105-139 | at the cap of 15 polls or when not RUNNING, the job is stopped without fetching traffic; a failed fetch sets FAILED and keeps the timer; a successful one stores the routes, counts one poll, and sets alertSent when a route breaches; alertSent never goes back to false; only the job's own trip can gain an alert |
| Monitoring.TrafficMonitoringService.Fetch | src/services/trafficMonitoringService.ts:111-138 | a poll past its guard: a failed snapshot marks the job FAILED, a successful one stores the routes, alerts once and counts the poll; the timer is unchanged |
| Monitoring.TrafficMonitoringService.FailPoll | src/services/trafficMonitoringService.ts:135-138 | a poll that throws marks the job FAILED and changes nothing else; the timer stays |
| Monitoring.FailKeepsInv | src/services/trafficMonitoringService.ts:135-138 | marking a polling job FAILED keeps the scheduler invariant |
| Monitoring.FailedStep | src/services/trafficMonitoringService.ts:135-138 | marking the job FAILED is the failed-fetch step: the same jobs, other jobs and every history unchanged, no poll counted |
| Monitoring.SucceededStep | src/services/trafficMonitoringService.ts:114-134 | storing the routes and alertSent after the alert step and counting the poll is the successful-fetch step |
| Monitoring.TrafficMonitoringService.SucceedPoll | src/services/trafficMonitoringService.ts:116-134 | a successful poll stores the routes, sets alertSent exactly when it was set or a route breaches, and raises pollCount by exactly one |
| Monitoring.TrafficMonitoringService.AlertOnce | src/services/trafficMonitoringService.ts:121-132 | an alert is raised only when none was sent before and a route breaches, and then it is the alert for the first breaching route; other trips' histories are unchanged |
| Monitoring.TrafficMonitoringService.CountPoll | src/services/trafficMonitoringService.ts:134 | the job is replaced and its poll count grows by exactly one, with every other part of the state unchanged |
| Monitoring.CountKeepsInv | src/services/trafficMonitoringService.ts:134 | counting a poll of a job below the cap of 15, whose first poll is done, keeps the scheduler invariant |
| Monitoring.TrafficMonitoringService.RaiseAlert | src/services/trafficMonitoringService.ts:182-232 | the alert carries the trip id, the first breaching route's name, its delay rounded to minutes, the reason text and a copy of the routes; it goes to the end of the trip's history and to the front of the display buffer |
| Monitoring.TrafficMonitoringService.CompleteFirstPoll | src/services/trafficMonitoringService.ts:105-146 | the first poll takes effect without its guard, which passed while the job was starting: a failed snapshot marks the job FAILED; a successful one stores the routes, raises the trip's alert unless one was sent and counts the poll; the timer is then armed |
| Monitoring.TrafficMonitoringService.Tick | src/services/trafficMonitoringService.ts:105-146 | one poll: at the cap of 15 or when not RUNNING the job becomes COMPLETED with its timer dropped and nothing else changes; otherwise the failed or successful fetch takes effect and the timer stays |
| Notifications.WorstDelayMinutes | src/services/notificationService.ts:26-38 | the largest delay in minutes over the routes, and never below 0 |
| Notifications.WorstDelayPercentage | src/services/notificationService.ts:26-38 | the largest delay percentage over the routes, and never below 0 |
| Notifications.WorstOf | src/services/notificationService.ts:27-38 | the scan's two running maxima end as the worst delay in minutes and the worst percentage |
| Notifications.WorstStep | src/services/notificationService.ts:30-38 | one more route raises each maximum to that route's value exactly when it is larger, and keeps it otherwise |
| Notifications.AlertWarranted | src/services/notificationService.ts:23-48 | the worst value reaches the threshold; its meaning is stated by `ShouldTriggerAlert`, `WorstDelayReachesIff` and `WorstPercentageReachesIff` |
| Notifications.ShouldTriggerAlert | src/services/notificationService.ts:23-48 | false for no routes and for any threshold type other than MINUTES and PERCENTAGE; otherwise whether the worst delay, in the threshold's unit, reaches the threshold |
| Notifications.WorstDelayReachesIff | src/services/notificationService.ts:26-42 | for a positive threshold, the worst delay reaches it exactly when some route's delay does |
| Notifications.WorstPercentageReachesIff | src/services/notificationService.ts:26-44 | for a positive threshold, the worst percentage reaches it exactly when some route's percentage does |
| Notifications.Prune | src/services/notificationService.ts:251-258 | keeps exactly the cooldown entries younger than 30 minutes; a single entry is kept exactly when it is younger |
| Notifications.PruneAppend | src/services/notificationService.ts:251-258 | pruning distributes over concatenation, so kept entries stay in order with their repetitions |
| Notifications.PruneCons | src/services/notificationService.ts:251-258 | an entry in front is kept in front exactly when it is younger than 30 minutes, and the rest is pruned alone |
| Notifications.PruneKeepsDecisions | src/services/notificationService.ts:81 | pruning at any earlier time never changes a later cooldown decision |
| Notifications.OtherRoadsIndependent | src/services/notificationService.ts:173-185 | an entry for another trip or another road does not change the decision for (trip, road) |
| Notifications.CooldownWindow | src/services/notificationService.ts:173-185 | an alert at t0 blocks the same trip and road 14 minutes later, and no longer blocks them 16 minutes later if it was the latest |
| Notifications.IsInQuietHours | src/services/notificationService.ts:202-223 | true only when quiet hours are present and enabled with a non-empty start and end |
| Notifications.QuietHoursByMinutes | src/services/notificationService.ts:207-222 | for padded times, inside quiet hours means start ≤ now ≤ end, or, when start is after end, now ≥ start or now ≤ end; both ends inclusive |
| Notifications.SendNotification | src/services/notificationService.ts:89-111 | not delivered inside quiet hours (checked first); otherwise delivered exactly when the email has a non-white-space character |
| Notifications.AlertValidationError | src/services/notificationService.ts:190-200 | no error exactly when trip id, trip name, route id and route name are all non-empty; a bad trip gives 'Invalid trip data' first |
| Notifications.NotificationService.constructor | src/services/notificationService.ts:11-18 | an empty history and an empty cooldown list |
| Notifications.NotificationService.History | src/services/notificationService.ts:117 | the trip's stored alerts, or empty for an unknown trip |
| Notifications.NotificationService.CreateAlert | src/services/notificationService.ts:53-84 | a validation error changes nothing; otherwise the alert (delay rounded to minutes, reason defaulting to 'Traffic delay detected') is appended to the trip's history, and the cooldown list gains its entry and is pruned |
| Notifications.NotificationService.ShouldCreateAlert | src/services/notificationService.ts:173-185 | false exactly when an entry for this trip and road is younger than 15 minutes |
| Notifications.NotificationService.GetAlertHistory | src/services/notificationService.ts:116-119 | the trip's alerts, newest first, as a permutation of the stored list; alerts with equal timestamps keep their stored order |
| Notifications.NotificationService.GetTotalAlertCount | src/services/notificationService.ts:138-144 | the sum of the history lengths |
| Notifications.NotificationService.FlattenedAlertsStored | src/services/notificationService.ts:159-163 | every alert in the flattened histories is stored under some trip |
| Notifications.NotificationService.GetRecentAlerts | src/services/notificationService.ts:158-168 | min(limit, total) alerts, newest first, drawn from the stored alerts as a sub-multiset, with no alert left out newer than one kept; for every timestamp, the kept alerts with it are the first of the stored alerts with it, in their stored order |
| Notifications.NotificationService.UpdateAlertAction | src/services/notificationService.ts:124-133 | none and no change exactly when no alert has the id; otherwise the first alert with it, scanning trips in insertion order and then positions, gets the action, and nothing else changes |
| Notifications.FindAlert | src/services/notificationService.ts:126 | the position of the first alert with the id, or none when no alert has it |
| Notifications.FirstAlertUnique | src/services/notificationService.ts:124-133 | the first alert with an id has a single position, so one alert changes |
| TrafficSim.Classify | src/services/mockApis.ts:106-108 | HEAVY iff the percentage exceeds 50, MODERATE iff it is in (20, 50], CLEAR otherwise |
| TrafficSim.ApplyCondition | src/services/mockApis.ts:93-118 | current duration is the static one scaled by 1 + severity and rounded; delay and percentage follow; id, name, distance, static duration and polyline unchanged |
| TrafficSim.NonNegativeSeverityNoGain | src/services/mockApis.ts:101-103 | a severity of 0 or more never shortens the route |
| TrafficSim.NoConditionIsClear | src/services/mockApis.ts:98-108 | a road with no condition has no delay and is CLEAR |
| TrafficSim.TenMinuteRouteExamples | src/services/mockApis.ts:106-108 | on a 600 s route, severities 0.1, 0.3 and 0.8 give CLEAR, MODERATE and HEAVY |
| TrafficSim.ReasonCategory | src/services/mockApis.ts:310-324 | the suffix group is chosen by the first of "accident", "breakdown", "roadworks" the reason contains |
| TrafficSim.UpdateIncidentReason | src/services/mockApis.ts:310-324 | 'Traffic incident' when the reason is absent or empty; otherwise the reason followed by a suffix for the trend and category |
| TrafficSim.TimeBasedScenarios | src/services/mockApis.ts:159-199 | depends only on weekday and hour: 4 roads in weekday rush hours, 3 in weekday school hours, 2 on weekend days 10–16, all severities in [0, 1] |
| TrafficSim.Activated | src/services/mockApis.ts:202-215 | entry i is kept exactly when draw i is under 0.3, and the kept entries are a subsequence of the table in its order |
| TrafficSim.ActiveRandomScenarios | src/services/mockApis.ts:202-215 | scenario i of the table is active exactly when its draw is under 0.3, and the active ones keep the table's order |
| TrafficSim.ApplyScenarios | src/services/mockApis.ts:135-156 | writing scenarios keeps the map well formed |
| TrafficSim.ApplyScenariosRoads | src/services/mockApis.ts:135-156 | after seeding, a road has a condition exactly when it had one or some scenario names it |
| TrafficSim.LastScenarioWins | src/services/mockApis.ts:140-155 | a road ends with the severity and reason of the last scenario naming it |
| TrafficSim.Evolve | src/services/mockApis.ts:222-247 | a road neither improving nor worsening is unchanged; worsening (0 < severity < 0.8) raises the original severity by up to 0.3, capped at 1, with the worsening reason text; improvement alone lowers it by up to 0.2, floored at 0, with the improving reason text while above 0.1 and none at or below; severities in [0, 1] stay there |
| TrafficSim.Pick | src/services/mockApis.ts:296-300 | a draw picks a valid index |
| TrafficSim.NewIncident | src/services/mockApis.ts:262-308 | a road and reason from the same group, with that group's severity range; every severity in [0.1, 0.8) |
| TrafficSim.KeepUnresolved | src/services/mockApis.ts:255-259 | the roads left after clearing are exactly those with severity 0.05 or more, in their order, without duplicates |
| TrafficSim.DropResolved | src/services/mockApis.ts:255-259 | the visited roads with severity under 0.05 are removed, and every other condition is kept |
| TrafficSim.ClearAt | src/services/mockApis.ts:256-258 | one step of the delete loop keeps the map equal to the conditions with the visited resolved roads removed |
| TrafficSim.DropAllResolved | src/services/mockApis.ts:255-259 | once every road is visited, exactly the unresolved conditions remain, unchanged |
| TrafficSim.ClearPass | src/services/mockApis.ts:254-259 | the delete loop leaves exactly the roads with severity 0.05 or more, in their order, with their conditions |
| TrafficSim.MockTomTomTraffic.constructor | src/services/mockApis.ts:87-91 | the conditions are the time-based scenarios, then the active random scenarios, written in order |
| TrafficSim.MockTomTomTraffic.WriteScenarios | src/services/mockApis.ts:140-155 | the map the seeding loop writes equals the scenarios applied in order |
| TrafficSim.MockTomTomTraffic.GetTrafficFlow | src/services/mockApis.ts:93-118 | the route with the road's condition applied; no delay and CLEAR for a road without one |
| TrafficSim.MockTomTomTraffic.GetTrafficIncidents | src/services/mockApis.ts:120-132 | [reason] exactly when the road has a condition above 0.3 with a non-empty reason, [] otherwise |
| TrafficSim.MockTomTomTraffic.GetCurrentConditions | src/services/mockApis.ts:335-340 | one entry per road, in insertion order, with its severity and reason |
| TrafficSim.MockTomTomTraffic.InjectTrafficScenario | src/services/mockApis.ts:331-333 | last write wins: the road gets the given severity and reason, and every other road is unchanged |
| TrafficSim.MockTomTomTraffic.EvolveAll | src/services/mockApis.ts:221-248 | every road evolves with its own draws; the set and order of roads are unchanged |
| TrafficSim.MockTomTomTraffic.ClearResolved | src/services/mockApis.ts:255-259 | exactly the conditions under 0.05 are deleted; the rest keep their values and order |
| TrafficSim.MockTomTomTraffic.UpdateTrafficConditions | src/services/mockApis.ts:217-260 | the conditions become `UpdatedConditions` of the old ones: after a tick no condition is under 0.05, severities in [0, 1] stay there, and a drawn incident is present with its severity and reason |
| TrafficSim.EvolvedMap | src/services/mockApis.ts:221-248 | the same roads in the same order, road i holding its condition evolved with draw i |
| TrafficSim.EvolvedMapAt | src/services/mockApis.ts:221-248 | a map with the same roads whose every road holds its evolved condition is the evolved map |
| TrafficSim.EvolvePass | src/services/mockApis.ts:221-247 | the forEach over the roads ends with the evolved map |
| TrafficSim.EvolveStep | src/services/mockApis.ts:221-247 | evolving road i extends the evolved prefix by that road, the others keeping their conditions |
| TrafficSim.EvolvedInRange | src/services/mockApis.ts:225-246 | when every severity and draw is in range, every evolved severity is in [0, 1] |
| TrafficSim.UpdatedConditions | src/services/mockApis.ts:217-260 | the tick's outcome is well formed and has no condition under 0.05 |
| TrafficSim.QuietRoadKept | src/services/mockApis.ts:217-260 | a road that neither improves nor worsens, is not the new incident and is not resolved keeps its condition |
| TrafficSim.ResolvedRoadDropped | src/services/mockApis.ts:255-259 | a road whose evolved severity is under 0.05 is gone after the tick |
| TrafficSim.OnlyIndex | src/services/mockApis.ts:335-340 | a road appears exactly once in the listed conditions |
| RouteProvider.RouteCount | src/services/mockApis.ts:24 | 4 routes beyond 20 km, 3 beyond 10 km, 2 otherwise |
| RouteProvider.SelectRouteName | src/services/mockApis.ts:64-67 | `selectRouteName`; its meaning is stated by `RoundRobinNames` and `DistinctNamesWithinCatalogue` |
| RouteProvider.RoundRobinNames | src/services/mockApis.ts:64-67 | route i is named after catalogue entry i mod 12 |
| RouteProvider.DistinctNamesWithinCatalogue | src/services/mockApis.ts:64-67 | the first 12 routes get distinct names |
| RouteProvider.BaseTime | src/services/mockApis.ts:20 | at least 5 minutes and at least 2 minutes per kilometre |
| RouteProvider.Variation | src/services/mockApis.ts:28 | a factor in [0.85, 1.15) |
| RouteProvider.CandidateRoute | src/services/mockApis.ts:26-43 | route i has id route_(i+1), the round-robin name, no delay, CLEAR, and current duration equal to the static one |
| RouteProvider.ComputeRoutes | src/services/mockApis.ts:15-46 | the tier's number of routes, route i built from draw i |
| RouteProvider.RouteIdsDistinct | src/services/mockApis.ts:33 | different positions give different route ids |
| Trips.ApplyUpdate | src/services/tripService.ts:67-75 | supplied fields win, the id and owner never change, updatedAt becomes now |
| Trips.EmptyUpdateOnlyTouches | src/services/tripService.ts:67-75 | an empty update only refreshes updatedAt |
| Trips.Toggled | src/services/tripService.ts:101-105 | isActive flips, updatedAt becomes now, nothing else changes |
| Trips.ToggleTwice | src/services/tripService.ts:101-105 | toggling twice restores the trip apart from updatedAt |
| Trips.IsTimeInRange | src/services/tripService.ts:195-197 | `isTimeInRange` on texts; for padded times its meaning is stated by `Clock.PaddedOrderIsTimeOrder` |
| Trips.IsDue | src/services/tripService.ts:112-135 | the filter of `getActiveTripsForTime`; its meaning is stated by `DueByMinutes` and `EarlyWindowNeverDue` |
| Trips.DueByMinutes | src/services/tripService.ts:112-135 | for padded windows starting at 00:30 or later, due exactly when active, scheduled today and windowStart − 30 min ≤ now ≤ windowEnd |
| Trips.EarlyWindowNeverDue | src/services/tripService.ts:188-197 | a window starting before 00:30 whose end precedes the wrapped start is never due |
| Trips.NameErrors | src/services/tripService.ts:141-143 | the name message exactly when the name is missing or blank |
| Trips.LocationErrors | src/services/tripService.ts:145-159 | no message exactly when the location is present with non-zero coordinates; 'required' when it is absent |
| Trips.ScheduleErrors | src/services/tripService.ts:161-170 | no message exactly for a schedule with days and both window times; each message for its own cause |
| Trips.ThresholdErrors | src/services/tripService.ts:172-178 | no message exactly for a present threshold with a positive value |
| Trips.ValidateTripData | src/services/tripService.ts:138-181 | no errors exactly for a non-blank name, two locations with non-zero coordinates, a schedule with days and window times, and a positive threshold |
| Trips.ValidateTripDataNameMessage | src/services/tripService.ts:141-143 | the name message appears exactly when the name is missing or blank |
| Trips.ValidateTripDataOriginMessages | src/services/tripService.ts:145-151 | each origin message appears exactly when its own check fails |
| Trips.ValidateTripDataDestinationMessages | src/services/tripService.ts:153-159 | each destination message appears exactly when its own check fails |
| Trips.ValidateTripDataThresholdMessages | src/services/tripService.ts:172-178 | each threshold message appears exactly when its own check fails |
| Trips.ValidateTripDataScheduleMessages | src/services/tripService.ts:161-170 | each schedule message appears exactly when its own check fails |
| Trips.PresentTrips | src/services/tripService.ts:47-56 | exactly the trips of the listed ids that are still stored |
| Trips.DueTrips | src/services/tripService.ts:112-135 | exactly the listed trips that are due |
| Trips.TripService.constructor | src/services/tripService.ts:5-7 | no trips and no owner lists |
| Trips.TripService.UserTripIds | src/services/tripService.ts:48 | the owner's id list, or empty |
| Trips.TripService.CreateTrip | src/services/tripService.ts:9-41 | a fresh id; the trip is stored active with a trimmed name and createdAt = updatedAt = now; its id is appended to the owner's list |
| Trips.TripService.GetTripById | src/services/tripService.ts:43-45 | the stored trip, or none exactly for an unknown id |
| Trips.TripService.GetTripsByUserId | src/services/tripService.ts:47-59 | the owner's still-present trips, sorted by updatedAt descending, trips with equal updatedAt in list order; [] for an unknown user |
| Trips.TripService.UpdateTrip | src/services/tripService.ts:61-77 | none and no change for an unknown id; otherwise the merged trip is stored and returned |
| Trips.TripService.DeleteTrip | src/services/tripService.ts:79-93 | false and no change for an unknown id; otherwise the trip leaves the map and its owner's list, and other trips are untouched |
| Trips.TripService.ToggleTripActive | src/services/tripService.ts:95-109 | none and no change for an unknown id; otherwise the toggled trip is stored and returned |
| Trips.TripService.GetActiveTripsForTime | src/services/tripService.ts:112-135 | exactly the stored trips that are due at that day and minute |
| Clock.MinuteOfDay | src/services/tripService.ts:195-197 | a padded time denotes a minute of the day |
| Clock.FormatTime | src/services/tripService.ts:184-186 | the zero-padded "HH:MM" text, which reads back as the same minute |
| Clock.FormatMinuteOfDay | src/services/tripService.ts:184-186 | formatting the minute of a padded time gives the same text back |
| Clock.PaddedLessIsEarlier | src/services/tripService.ts:195-197 | for padded times, string order is minute order |
| Clock.PaddedOrderIsTimeOrder | src/services/notificationService.ts:218-221 | for padded times, both < and <= on texts agree with minute-of-day order |
| Clock.JsNumber | src/services/tripService.ts:189 | `Number()` on a time piece, for the texts modelled; its use is stated by `ParsePadded` and `SubtractIs` |
| Clock.ParseTime | src/services/tripService.ts:189 | `split(':').map(Number)` as a minute of the day; its meaning is stated by `ParsePadded` |
| Clock.SubtractMinutes | src/services/tripService.ts:188-193 | the result is a padded time, or the text of an Invalid Date |
| Clock.SubtractMinutesPadded | src/services/tripService.ts:188-193 | on a padded time, the result is k minutes earlier, wrapping to the previous evening before midnight |
| Clock.SubtractIs | src/services/tripService.ts:188-193 | any parsable time gives the formatted minute (v − k) mod 1440 |
| Clock.ParsePadded | src/services/tripService.ts:189-191 | the hours and minutes parsed from a padded time are its own |
| Users.EmailFormatMatchesPattern | src/services/userService.ts:261 | the scan accepts exactly what the address pattern matches |
| Users.EmailError | src/services/userService.ts:255-269 | `validateEmail(email, true)`; its meaning is stated by `EmailErrorMeaning` and `EmailFormatMatchesPattern` |
| Users.ValidName | src/services/userService.ts:286-292 | `validateName`: present and not blank; its use is stated by `CreateUserErrorMeaning` and `ProfileErrorMeaning`, and blankness by `Text.BlankIffAllWhitespace` |
| Users.EmailErrorMeaning | src/services/userService.ts:255-269 | no error exactly for a non-empty address whose trimmed text matches the pattern; 'Email is required' or 'Invalid email format' otherwise |
| Users.ValidTimeFormat | src/services/userService.ts:271-276 | `validateTimeFormat`; its meaning is stated by `ValidTimeFormatPadded`, `ValidTimeFormatShort`, `ValidTimeFormatLength` and `TimeFormatExamples` |
| Users.ValidNavApp | src/services/userService.ts:278-281 | `validateNavApp`: membership in google_maps, apple_maps and waze; used by `SettingsErrorMeaning` |
| Users.ValidTimeFormatPadded | src/services/userService.ts:271-276 | five-character times pass exactly when they are zero-padded valid times |
| Users.ValidTimeFormatShort | src/services/userService.ts:271-276 | an accepted four-character time is a valid time with one hour digit |
| Users.ValidTimeFormatLength | src/services/userService.ts:271-276 | accepted times have four or five characters |
| Users.TimeFormatExamples | src/services/userService.ts:271-276 | '07:30', '23:59' and '1:30' pass; '24:00', '12:60' and '' fail |
| Users.SettingsError | src/services/userService.ts:294-314 | `validateSettings`; its meaning is stated by `SettingsErrorMeaning` |
| Users.SettingsErrorMeaning | src/services/userService.ts:294-314 | no error exactly when a given navigation app is known and every given quiet-hours time is valid |
| Users.NewSettings | src/services/userService.ts:43-46 | defaults to google_maps and no quiet hours; given values win |
| Users.MergeSettings | src/services/userService.ts:90-93 | supplied parts replace the current ones, absent parts keep them |
| Users.CreateUserError | src/services/userService.ts:17-52 | the checks of `createUser` in order; their meaning is stated by `CreateUserErrorMeaning` and `AcceptedAddressIsFree` |
| Users.CreateUserErrorMeaning | src/services/userService.ts:17-52 | accepted exactly with a valid address and name, an address neither in use nor previously deleted, and valid settings |
| Users.AcceptedAddressIsFree | src/services/userService.ts:29-36 | an accepted address is neither stored nor deleted |
| Users.ProfileError | src/services/userService.ts:108-122 | the checks of `updateUserProfile`; their meaning is stated by `ProfileErrorMeaning` and `AcceptedProfile` |
| Users.ProfileErrorMeaning | src/services/userService.ts:108-122 | accepted exactly when a given name is valid and a given address is valid and not held by another user |
| Users.AcceptedProfile | src/services/userService.ts:117-121 | an accepted address is free or already the user's own |
| Users.UpdatedProfile | src/services/userService.ts:124-137 | the name is trimmed, the address normalised, everything else kept |
| Users.LookupMeaning | src/services/userService.ts:70-74 | lookup by address finds a user exactly when some stored user has the normalised address |
| Users.IndexedIsFound | src/services/userService.ts:70-74 | every indexed address leads to a stored user |
| Users.StoreNewUser | src/services/userService.ts:54-55 | storing a user under a fresh id and a free address keeps users and index consistent |
| Users.ReplaceUser | src/services/userService.ts:90-93 | replacing a user with the same address keeps the store consistent |
| Users.MoveUserEmail | src/services/userService.ts:129-137 | moving a user to a free or own address keeps the store consistent |
| Users.RemoveUserKeeps | src/services/userService.ts:150-154 | removing a user and its index entry keeps the store consistent |
| Users.DemoCreatable | src/services/userService.ts:204-227 | a well-formed demo user whose address is free is accepted |
| Users.Found | src/services/userService.ts:202-227 | the users a list of addresses finds, in order, at most one per address |
| Users.FoundAll | src/services/userService.ts:202-227 | the found list has an entry for every address exactly when every address finds a user |
| Users.FoundStep | src/services/userService.ts:204-224 | a step that only changes address i's lookup extends the users found for the first i addresses by what address i now finds |
| Users.FoundAgree | src/services/userService.ts:202-227 | stores whose lookups agree on the addresses find the same users |
| Users.DemoKeysDistinct | src/services/userService.ts:163-200 | the three demo addresses are distinct once normalised |
| Users.UserService.constructor | src/services/userService.ts:5-12 | no users, no index entries, no deleted addresses |
| Users.UserService.GetUserById | src/services/userService.ts:63-65 | the stored user, or none exactly for an unknown id |
| Users.UserService.GetUserByEmail | src/services/userService.ts:70-74 | case-insensitive lookup: a user exactly when one has the normalised address |
| Users.UserService.GetAllUsers | src/services/userService.ts:240-242 | every user in insertion order |
| Users.UserService.GetUsers | src/services/userService.ts:247-250 | the users in positions [offset, offset + limit), cut at the end |
| Users.UserService.CreateUser | src/services/userService.ts:17-58 | any error stores nothing; otherwise a fresh user with normalised address, trimmed name and default settings is stored and indexed |
| Users.UserService.StoreUser | src/services/userService.ts:54-55 | the user is stored and indexed under its fresh id |
| Users.UserService.UpdateUserSettings | src/services/userService.ts:79-96 | none for an unknown id; invalid settings change nothing; otherwise the merged settings are stored |
| Users.UserService.UpdateUserProfile | src/services/userService.ts:101-140 | none for an unknown id; an error ('Email already in use' among them) changes nothing; otherwise the profile and index are updated together |
| Users.UserService.MoveUser | src/services/userService.ts:124-137 | the user is replaced and the index moves from the old address to the new |
| Users.UserService.DeleteUser | src/services/userService.ts:145-157 | false and no change for an unknown id; otherwise the user and its index entry go and the address is recorded as deleted |
| Users.UserService.CreateDemoUsers | src/services/userService.ts:162-228 | returns, in order, the users the demo addresses find once it is done; every acceptable demo user not deleted is then findable; when all are already registered it changes nothing, so a second call returns what the first returned |
| Users.UserService.CreateAccounts | src/services/userService.ts:202-227 | the same, for any accounts with distinct addresses: the result is exactly the users their addresses find afterwards, in order |
| Users.UserService.AddDemoUsers | src/services/userService.ts:204-227 | the loop keeps the store consistent, registers each acceptable address, and returns exactly the users the addresses find afterwards, in order |
| Users.UserService.AddDemoUser | src/services/userService.ts:205-224 | returns exactly what the address finds afterwards: an existing user unchanged, else the created one, else the fallback lookup; the lookup of every other address is unchanged |
| Validation.Lookup | src/middleware/validation.ts:238-298 | a property read finds a field with that key |
| Validation.LocationMessages | src/middleware/validation.ts:249-271 | no message exactly for a truthy location with number coordinates and an address |
| Validation.ScheduleMessages | src/middleware/validation.ts:273-282 | no message exactly for a schedule with a non-empty day list and both window times |
| Validation.ThresholdMessages | src/middleware/validation.ts:284-295 | no message exactly for a known type and a positive number |
| Validation.ValidateTripCreate | src/middleware/validation.ts:238-298 | a null or undefined body throws |
| Validation.TripCreateAcceptsExactly | src/middleware/validation.ts:238-298 | no message exactly for the bodies with every field present and well formed |
| Validation.TripCreateUserIdMessage | src/middleware/validation.ts:241-243 | the user-id message exactly when userId is not a non-empty string |
| Validation.TripCreateNameMessage | src/middleware/validation.ts:245-247 | the name message exactly when the name is not a non-blank string |
| Validation.TripCreateOriginMessage | src/middleware/validation.ts:249-251 | the origin message exactly when the origin is falsy |
| Validation.TripCreateDestinationMessage | src/middleware/validation.ts:261-263 | the destination message exactly when the destination is falsy |
| Validation.TripCreateThresholdMessage | src/middleware/validation.ts:284-286 | the threshold message exactly when the threshold is falsy |
| Validation.TripCreateThresholdValueMessage | src/middleware/validation.ts:291-294 | the value message exactly when a threshold is given without a positive number |
| Validation.ValidateTripUpdate | src/middleware/validation.ts:300-320 | throws for a nullish body or a null threshold; flags a present non-string or blank name |
| Validation.EmptyUpdateAccepted | src/middleware/validation.ts:300-320 | an empty body passes |
| Validation.TripUpdateAcceptsExactly | src/middleware/validation.ts:300-320 | no message exactly when the name, if present, is non-blank and the threshold, if present, is well formed |
| Validation.CreatableIsUpdatable | src/middleware/validation.ts:238-320 | a body the create check accepts is also accepted by the update check |
| Validation.ValidateTrafficScenario | src/middleware/validation.ts:348-364 | a nullish body throws |
| Validation.TrafficScenarioAcceptsExactly | src/middleware/validation.ts:348-364 | no message exactly for a non-blank route and reason and a severity in [0, 1] |
| Validation.SanitizeString | src/middleware/validation.ts:100-107 | `sanitizeString`; its meaning is stated by `SanitizedIsTagFree`, `PlainTextOnlyTrimmed` and `SanitizeStringIdempotent` |
| Validation.SanitizeObject | src/middleware/validation.ts:109-129 | `sanitizeObject`; its meaning is stated by `SanitizeObjectShape` and `SanitizeObjectIdempotent` |
| Validation.StripTagFreeUnchanged | src/middleware/validation.ts:103-105 | stripping leaves text without tags unchanged |
| Validation.TrimKeepsTagFree | src/middleware/validation.ts:106 | trimming keeps text tag-free |
| Validation.SanitizedIsTagFree | src/middleware/validation.ts:100-107 | no sanitised text contains a tag |
| Validation.PlainTextOnlyTrimmed | src/middleware/validation.ts:100-107 | text without '<' is only trimmed |
| Validation.SanitizeStringIdempotent | src/middleware/validation.ts:100-107 | sanitising twice equals sanitising once |
| Validation.SanitizeObjectShape | src/middleware/validation.ts:109-129 | the result keeps every key, array length and non-string leaf, and every string in it is sanitised |
| Validation.SanitizeObjectIdempotent | src/middleware/validation.ts:109-129 | sanitising a value twice equals sanitising it once |
| Validation.Recent | src/middleware/validation.ts:187-189 | exactly the timestamps strictly inside the window |
| Validation.RecentTwice | src/middleware/validation.ts:187-189 | filtering at an earlier time and then now equals filtering now |
| Validation.RecentAppend | src/middleware/validation.ts:187-189 | filtering distributes over concatenation |
| Validation.CeilMinutes | src/middleware/validation.ts:196 | the window rounded up to whole minutes |
| Validation.Cleaned | src/middleware/validation.ts:216-229 | keeps exactly the keys with in-window timestamps, each with its filtered list |
| Validation.ClientKey | src/middleware/validation.ts:180 | the client's address, or 'unknown' when it is empty: the key `Handle` counts requests under |
| Validation.RateLimiter.constructor | src/middleware/validation.ts:170-176 | the given window and maximum, and no requests |
| Validation.RateLimiter.Handle | src/middleware/validation.ts:178-214 | rejected, with nothing recorded, exactly when the key already has the maximum in the window; otherwise now is appended to the in-window list, remaining is max(0, max − count) and reset is now + window |
| Validation.RateLimiter.Cleanup | src/middleware/validation.ts:216-229 | the request map becomes its cleaned version |
| Validation.CleanedHasNoEmptyList | src/middleware/validation.ts:223-227 | after cleanup no key maps to an empty list, and every kept timestamp is in the window |
| Validation.CleanupKeepsDecisions | src/middleware/validation.ts:216-229 | cleanup never changes a later in-window count |
| Orchestration.WorstIndex | src/services/orchestrationService.ts:203-205 | the route with the largest delay, the earliest one on ties |
| Orchestration.OrchestrationService.constructor | src/services/orchestrationService.ts:18-23 | fresh services, no tracked jobs, no periodic timer |
| Orchestration.OrchestrationService.RunningTrips | src/services/orchestrationService.ts:233-234 | exactly the trips of the tracked RUNNING jobs |
| Orchestration.OrchestrationService.HandleTrafficAlert | src/services/orchestrationService.ts:103-134 | nothing for an unknown user or inside the cooldown, in that order; otherwise exactly one alert is created for the trip, the cooldown list gains the entry for the trip and road and is pruned, and delivery is attempted |
| Orchestration.OrchestrationService.CheckTrip | src/services/orchestrationService.ts:196-208 | only this trip's history can change; it gains exactly one alert exactly when the routes warrant one, the user is known, the worst route's road is out of its cooldown and the alert validates; that alert is for the trip, triggered by the worst route, and carries the routes, and the cooldown list gains the entry for the trip and that road and is pruned; with no new alert the cooldown list is unchanged |
| Orchestration.OrchestrationService.CheckAllTripsForAlerts | src/services/orchestrationService.ts:189-214 | histories only grow, and only active trips gain alerts |
| Orchestration.OrchestrationService.CheckUserTrips | src/services/orchestrationService.ts:193-212 | checking one user's trips only grows histories, and only of active trips |
| Orchestration.OrchestrationService.CheckListedTrip | src/services/orchestrationService.ts:196-211 | checking one listed trip only grows histories, and only of active trips |
| Orchestration.OrchestrationService.ActiveListedTrip | src/services/orchestrationService.ts:193-194 | an active trip of a user's list is an active stored trip |
| Orchestration.OrchestrationService.StartPeriodicMonitoring | src/services/orchestrationService.ts:219-224 | the periodic timer is armed and nothing else changes |
| Orchestration.OrchestrationService.StartUserMonitoring | src/services/orchestrationService.ts:64-80 | the returned jobs' trips are, as a multiset, exactly the user's stored trips that are active and whose start succeeds; each job is fresh, RUNNING, stored and tracked; existing jobs are unchanged |
| Orchestration.OrchestrationService.StartListedTrip | src/services/orchestrationService.ts:69-77 | listed trip i joins the started trips exactly when it is active and its start succeeds |
| Orchestration.OrchestrationService.StartTripJob | src/services/orchestrationService.ts:70-76 | a failed start leaves the job list as it was; a successful one appends one job for the trip |
| Orchestration.OrchestrationService.StartedAll | src/services/orchestrationService.ts:64-80 | the trips started in the listing's order are, as a multiset, the user's startable trips |
| Orchestration.StartableIdsAppend | src/services/orchestrationService.ts:66-77 | which trips are startable distributes over concatenation of trip lists |
| Orchestration.StartableIdsPermutation | src/services/orchestrationService.ts:66-77 | reordering the trips reorders the startable trips and changes nothing else |
| Orchestration.StartableStep | src/services/orchestrationService.ts:69-77 | one more listed trip adds its id exactly when it is active and its start succeeds |
| Orchestration.OrchestrationService.StartJob | src/services/orchestrationService.ts:70-76 | the scheduler gains exactly one job for the trip under the next job id, whatever the outcome; the start succeeds exactly when the initial route computation does, and then the job is RUNNING and tracked |
| Orchestration.OrchestrationService.PeriodicTick | src/services/orchestrationService.ts:224-257 | old jobs are unchanged; every new job is for a due trip that had no tracked RUNNING job; each such due trip gets a job, RUNNING and tracked when its start succeeds, and at most one new tracked job per trip; afterwards no COMPLETED or FAILED job is tracked and RUNNING ones stay tracked |
| Orchestration.OrchestrationService.StartDueJobs | src/services/orchestrationService.ts:233-245 | every job gained is for a due trip that was not running; each such due trip gets a job, RUNNING and tracked when its start succeeds |
| Orchestration.OrchestrationService.StartIfIdle | src/services/orchestrationService.ts:235-244 | a due trip is started only when it has no tracked RUNNING job, keeping the loop's progress |
| Orchestration.OrchestrationService.StartIdle | src/services/orchestrationService.ts:236-243 | starting a due trip with no RUNNING job keeps the loop's progress and records the trip as started |
| Orchestration.RunningSinceTick | src/services/orchestrationService.ts:235-237 | trips running when the tick began are still running; a tracked RUNNING job of a trip that was not is new |
| Orchestration.TickProgressStep | src/services/orchestrationService.ts:239-241 | storing and tracking a job for a trip without a RUNNING job keeps new jobs RUNNING and one per trip |
| Orchestration.TickStartedStep | src/services/orchestrationService.ts:239-241 | storing a job for a due trip that was not running records it as started, and running when its start succeeded |
| Orchestration.TickSkipStep | src/services/orchestrationService.ts:235-238 | skipping a due trip that already has a RUNNING job keeps the loop's progress |
| Orchestration.TickOutcome | src/services/orchestrationService.ts:230-252 | after the cleanup, old RUNNING jobs stay tracked, each due trip that was not running has a new job, and it is running and tracked when its start succeeded |
| Orchestration.OrchestrationService.ForgetFinished | src/services/orchestrationService.ts:248-252 | the tracked jobs become those not COMPLETED and not FAILED |
| Orchestration.OrchestrationService.Shutdown | src/services/orchestrationService.ts:263-282 | every tracked job is COMPLETED with its timer dropped, the tracked map is empty and the periodic timer is cleared |
| Orchestration.OrchestrationService.StopTracked | src/services/orchestrationService.ts:272-278 | one tracked job is stopped: COMPLETED with no timer, other jobs untouched |
| Uptime.Trunc | src/routes/statusRoutes.ts:252-255 | truncation toward zero |
| Uptime.JsMod | src/routes/statusRoutes.ts:253-255 | JavaScript's %: the sign of the dividend and a magnitude below the divisor |
| Uptime.FloorDiv | src/routes/statusRoutes.ts:252 | flooring a quotient equals integer division of the floor |
| Uptime.FloorMod | src/routes/statusRoutes.ts:253-255 | flooring a remainder equals the remainder of the floor |
| Uptime.Split | src/routes/statusRoutes.ts:252-255 | the days, hours, minutes and seconds components; their meaning is stated by `SplitIsDecomposition` |
| Uptime.Part | src/routes/statusRoutes.ts:257-260 | one component's text, pushed only when positive; its meaning is stated by `PartIsNotZero` |
| Uptime.Parts | src/routes/statusRoutes.ts:257-260 | the non-zero components in d, h, m, s order; stated by `PartIsNotZero` and `ZeroSecondsIff` |
| Uptime.FormatUptime | src/routes/statusRoutes.ts:251-264 | `formatUptime`; its meaning is stated by `ZeroSecondsIff`, `NegativeIsZero`, `OneHour` and `OneOfEach` |
| Uptime.Decompose | src/routes/statusRoutes.ts:252-255 | a whole number of seconds splits into days, hours < 24, minutes < 60 and seconds < 60 |
| Uptime.SplitIsDecomposition | src/routes/statusRoutes.ts:252-255 | for s ≥ 0 the components satisfy days·86400 + hours·3600 + minutes·60 + seconds = ⌊s⌋ within their ranges |
| Uptime.NegativeIsZero | src/routes/statusRoutes.ts:257-263 | a negative uptime prints '0s' |
| Uptime.PartIsNotZero | src/routes/statusRoutes.ts:257-260 | a zero component is never printed |
| Uptime.ZeroSecondsIff | src/routes/statusRoutes.ts:257-263 | '0s' exactly when the uptime is under one second |
| Uptime.OneHour | src/routes/statusRoutes.ts:251-264 | 3600 prints '1h' |
| Uptime.OneOfEach | src/routes/statusRoutes.ts:251-264 | 90061 prints '1d 1h 1m 1s' |
| Types.Round | src/services/notificationService.ts:62 | Math.round: within half of the argument, halves rounded up |
| Text.Trim | src/services/userService.ts:26 | the trimmed text neither starts nor ends with white space |
| Text.TrimShape | src/services/userService.ts:26 | the trimmed text is one slice s[a..b] of the input, and the dropped prefix and suffix are all white space |
| Text.BlankIffAllWhitespace | src/middleware/validation.ts:245 | a string trims to '' exactly when all its characters are white space |
| Text.TrimIdempotent | src/middleware/validation.ts:106 | trimming twice equals trimming once |
| Text.ToLower | src/services/userService.ts:26 | lower-cases ASCII letters one by one and keeps the length |
| Text.PrefixedInjective | src/services/tripService.ts:17 | counter ids with one prefix are distinct for distinct counters |
| Sorting.SortDesc | src/services/notificationService.ts:118 | the sort returns a permutation ordered by descending key |
| Sorting.SortDescStable | src/services/notificationService.ts:118 | the sort is stable: for every key, the elements with that key come out in their input order |
| Sorting.InsertDescKeyFilter | src/services/notificationService.ts:118 | inserting an element puts it ahead of the elements with its key and keeps every key's elements in order |
| Sorting.KeyFilterAppend | src/services/notificationService.ts:165-167 | filtering by key distributes over concatenation |
| Sorting.TakeKeyFilter | src/services/notificationService.ts:167 | the first n elements hold, for every key, a prefix of that key's elements |
| Sorting.TakeSorted | src/services/notificationService.ts:165-167 | the first n of a sorted list are sorted and drawn from it |
| Sorting.TakeSortedNewest | src/services/notificationService.ts:165-167 | after the first n of a newest-first list, every element left out is no newer than one kept |
| Sorting.Flatten | src/services/notificationService.ts:159-163 | the concatenated histories contain exactly the alerts of the lists |

## Left out

- Distance is an input: the haversine `calculateDistance` (src/services/mockApis.ts:48-62) is floating-point trigonometry.
- The polyline text (src/services/mockApis.ts:69-73) is a parameter, because it prints floating-point coordinates.
- Every `Math.random()` draw is a parameter, and artificial latency is dropped.
- `setInterval` and `setTimeout` are explicit tick methods. Interleaving of awaits is not modelled: each method runs to completion.
- Console output is not modelled: `sendAlert`, `logNotification` and all log text.
- `uuid` is modelled by counters. Only the freshness of ids is relied on.
- The NotificationService stubs that only log and return constants (src/services/notificationService.ts:265-350) are not modelled.
- `getUserAlertCount` and `getTotalUserCount` are not modelled: they are a count over a filter and a map size.
- `simulateTrafficIncident` (src/services/trafficMonitoringService.ts:235-238) and `simulateTrafficScenario` only forward to `InjectTrafficScenario`.
- These orchestrator members are not modelled: `initializeDemo`, `startSystemWideMonitoring`, `getSystemStatus`, `getServices` and `createUserWithTrips`. They compose the modelled operations over demo data.
- `initializeDemoData` of the trip store is not modelled: a fixed set of `CreateTrip` calls.
- These Express wrappers are not modelled: `validateRequest`, `validateQuery`, `validateParams`, `validateJSON`, `handleValidationError`, `queryValidation` and `paramValidation`. Neither are the routes other than `formatUptime`.
- The rate limiter's headers and response body are not modelled: `Handle` returns the numbers they carry.
- `Date` is modelled as a weekday and a minute of the day. Time zones and daylight saving are not modelled.
- Text handling covers white space as `trim` and `\s` know it, and ASCII case folding. Unicode case folding is not modelled.
- Duplicate JSON keys, `NaN` and `Infinity` are not modelled: a request body is a tree of JSON values.
- Monitoring.TrafficMonitoringService.GetCurrentTrafficStatus: takes the candidate routes as a parameter rather than computing them, because that step draws random numbers.
- Orchestration.OrchestrationService: tracks job ids only. The code's map holds the job objects, which alias the scheduler's, so the status is read from the scheduler.
- Orchestration.OrchestrationService.CheckAllTripsForAlerts: does not state which alerts are created. Each trip's step is stated by `CheckTrip`; the loop states only that histories grow, and only for active trips.
- Notifications.NotificationService.GetRecentAlerts and Users.UserService.GetUsers: the default arguments (`limit = 10`, `offset = 0`) are not modelled, and the arguments are natural numbers, so the meaning `slice` gives a negative argument is not modelled.
- Monitoring.PushRecent: the displayed-alerts buffer belongs to each scheduler instance. The code keeps it on `global`, where every instance shares it; the orchestrator creates a single instance, for which the two agree.
- Users.UserService.CreateDemoUsers: that the fixed demo addresses pass the address pattern is not proved. The contract holds for every demo user that is acceptable.
- Uptime.FormatUptime: the uptime is an exact real. `formatUptime` receives a double, and flooring a rounded floating-point quotient can differ from the exact one right at a component boundary.
- Clock.SubtractMinutes: a window start with a sign, a fraction, or hexadecimal or exponent notation, which `Number()` reads and `setHours` truncates, counts as unparsable here, so such a trip is never due.
- Trips.EarlyWindowNeverDue: the code's wrap-around is kept as written. The model does not supply a corrected schedule check.
