/**
 * The monitoring job scheduler (`TrafficMonitoringService`). A job is started per trip,
 * polls the trip's routes once straight away and then on a two-minute timer, raises at most
 * one alert, and stops itself after 15 successful polls or once it is no longer RUNNING.
 *
 * The timer is explicit: `CompleteFirstPoll` is the immediate poll that ends by arming the
 * timer, and `Tick` is one firing of an armed timer. Each poll receives the route snapshot the
 * providers returned, or the error they threw.
 */
module Monitoring {
  import opened Wrappers
  import opened Text
  import opened OrderedMaps
  import opened Types
  import opened TrafficSim
  import opened Sorting

  const MaxPolls: nat := 15
  const DisplayCapacity: nat := 10

  function JobId(n: nat): string { "job-" + NatToString(n) }

  function AlertId(n: nat): string { "alert-" + NatToString(n) }

  lemma JobIdInjective(m: nat, n: nat)
    ensures JobId(m) == JobId(n) ==> m == n
  {
    PrefixedInjective("job-", m, n);
  }

  /** The next job id is fresh, and stays distinct from every later one. */
  lemma FreshJobId(jobs: OrderedMap<string, MonitoringJob>, next: nat)
    requires forall n: nat :: n >= next ==> JobId(n) !in jobs.entries
    ensures JobId(next) !in jobs.entries
    ensures forall n: nat :: n >= next + 1 ==> JobId(n) != JobId(next)
  {
    forall n: nat | n >= next + 1
      ensures JobId(n) != JobId(next)
    {
      JobIdInjective(n, next);
    }
  }

  // ---------------------------------------------------------------------------------------
  // Threshold scan

  /** MINUTES compares the delay in seconds with value × 60; every other kind compares the percentage. */
  predicate Breaches(route: Route, t: AlertThreshold) {
    if t.kind == Minutes then route.delay as real >= t.value * 60.0
    else route.delayPercentage >= t.value
  }

  /** Route i is the first route, in list order, that breaches the threshold. */
  predicate FirstBreachAt(routes: seq<Route>, t: AlertThreshold, i: int) {
    0 <= i < |routes| && Breaches(routes[i], t) && forall j :: 0 <= j < i ==> !Breaches(routes[j], t)
  }

  /** "N min delay via R" or "P% slower via R", with " due to <lower-cased incident>" when the route has one. */
  function BreachReason(route: Route, t: AlertThreshold): string {
    var base :=
      if t.kind == Minutes then IntToString(Round(route.delay as real / 60.0)) + " min delay via " + route.name
      else IntToString(Round(route.delayPercentage)) + "% slower via " + route.name;
    if Truthy(route.reason) then base + " due to " + ToLower(route.reason.value) else base
  }

  /**
   * The reason names the route, and keeps any lower-case word of the route's incident text
   * (so an incident mentioning "accident" gives a reason mentioning "accident").
   */
  lemma ReasonMentions(route: Route, t: AlertThreshold, w: string)
    ensures Contains(BreachReason(route, t), route.name)
    ensures Truthy(route.reason) && Contains(route.reason.value, w) && ToLower(w) == w ==>
              Contains(BreachReason(route, t), w)
  {
    var name := route.name;
    assert StartsWith(name, name);
    var head :=
      if t.kind == Minutes then IntToString(Round(route.delay as real / 60.0)) + " min delay via "
      else IntToString(Round(route.delayPercentage)) + "% slower via ";
    ContainsAfter(head, name, name);
    var base := head + name;
    if Truthy(route.reason) {
      var tail := " due to " + ToLower(route.reason.value);
      ContainsBefore(base, tail, name);
      assert BreachReason(route, t) == base + tail;
      if Contains(route.reason.value, w) && ToLower(w) == w {
        ContainsLower(route.reason.value, w);
        ContainsAfter(" due to ", ToLower(route.reason.value), w);
        ContainsAfter(base, tail, w);
      }
    } else {
      assert BreachReason(route, t) == base;
    }
  }

  datatype Trigger = Trigger(index: nat, route: Route, reason: string)

  /** `shouldTriggerAlert`: the first breaching route in list order and its reason, if any. */
  method ShouldTriggerAlert(routes: seq<Route>, t: AlertThreshold) returns (r: Option<Trigger>)
    ensures r.None? <==> forall i :: 0 <= i < |routes| ==> !Breaches(routes[i], t)
    ensures r.Some? ==> FirstBreachAt(routes, t, r.value.index)
                        && r.value.route == routes[r.value.index]
                        && r.value.reason == BreachReason(r.value.route, t)
  {
    var i := 0;
    while i < |routes|
      invariant 0 <= i <= |routes|
      invariant forall j :: 0 <= j < i ==> !Breaches(routes[j], t)
    {
      if Breaches(routes[i], t) {
        return Some(Trigger(i, routes[i], BreachReason(routes[i], t)));
      }
      i := i + 1;
    }
    return None;
  }

  /** MINUTES 10: a delay of 599 s does not breach, 600 s does. PERCENTAGE 25: 24.9 does not, 25.0 does. */
  lemma ThresholdBoundaries(r: Route)
    ensures r.delay == 599 ==> !Breaches(r, AlertThreshold(Minutes, 10.0))
    ensures r.delay == 600 ==> Breaches(r, AlertThreshold(Minutes, 10.0))
    ensures r.delayPercentage == 24.9 ==> !Breaches(r, AlertThreshold(Percentage, 25.0))
    ensures r.delayPercentage == 25.0 ==> Breaches(r, AlertThreshold(Percentage, 25.0))
  {
  }

  /** The alert `createAlert` builds for the triggering route, holding a copy of every route. */
  predicate IsAlertFor(a: TrafficAlert, trip: Trip, routes: seq<Route>, now: int) {
    exists i :: 0 <= i < |routes| && FirstBreachAt(routes, trip.alertThreshold, i)
      && a.tripId == trip.id
      && a.timestamp == now
      && a.triggeredBy == routes[i].name
      && a.delayMinutes == Round(routes[i].delay as real / 60.0)
      && a.reason == BreachReason(routes[i], trip.alertThreshold)
      && a.routes == routes
      && a.userAction == None
  }

  /**
   * A poll that got `routes` stores them in the job, keeps its status, and sets alertSent
   * exactly when it was already set or some route breaches the trip's threshold.
   */
  predicate SucceededPoll(before: MonitoringJob, after: MonitoringJob, trip: Trip, routes: seq<Route>) {
    after == before.(routes := Some(routes),
                     alertSent := before.alertSent || exists i :: 0 <= i < |routes| && Breaches(routes[i], trip.alertThreshold))
  }

  /** The alert for `routes` was put in front of the display buffer and at the end of the trip's history. */
  predicate AlertRaised(bufferBefore: seq<TrafficAlert>, bufferAfter: seq<TrafficAlert>,
                        historyBefore: seq<TrafficAlert>, historyAfter: seq<TrafficAlert>,
                        trip: Trip, routes: seq<Route>, now: int) {
    bufferAfter != [] && IsAlertFor(bufferAfter[0], trip, routes, now)
    && bufferAfter == PushRecent(bufferAfter[0], bufferBefore)
    && historyAfter == historyBefore + [bufferAfter[0]]
  }

  // ---------------------------------------------------------------------------------------
  // Display buffer and queries

  function MinInt(a: int, b: int): int { if a <= b then a else b }

  /** `storeAlertForDisplay`: the alert goes in front, and only the ten newest are kept. */
  function PushRecent(alert: TrafficAlert, buffer: seq<TrafficAlert>): (r: seq<TrafficAlert>)
    ensures |r| == MinInt(|buffer| + 1, DisplayCapacity)
    ensures r[0] == alert
    ensures r[1..] == buffer[..|r| - 1]
  {
    var all := [alert] + buffer;
    assert all[1..] == buffer;
    all[..MinInt(|all|, DisplayCapacity)]
  }

  /** The jobs whose status is RUNNING, in order. */
  function FilterRunning(jobs: seq<MonitoringJob>): (r: seq<MonitoringJob>)
    ensures forall j :: j in r <==> j in jobs && j.status == Running
    ensures |r| <= |jobs|
    ensures |jobs| == 1 ==> r == (if jobs[0].status == Running then jobs else [])
  {
    if jobs == [] then []
    else (if jobs[0].status == Running then [jobs[0]] else []) + FilterRunning(jobs[1..])
  }

  /** Filtering works job by job: it distributes over concatenation, so order and repetitions are kept. */
  lemma {:induction false} FilterRunningAppend(a: seq<MonitoringJob>, b: seq<MonitoringJob>)
    ensures FilterRunning(a + b) == FilterRunning(a) + FilterRunning(b)
  {
    if a == [] {
      assert a + b == b;
    } else {
      assert (a + b)[1..] == a[1..] + b;
      FilterRunningAppend(a[1..], b);
    }
  }


  /**
   * The stored jobs agree with the polling state: every polled job is stored and watches its
   * trip, and no job id from the counter onward is taken.
   */
  ghost predicate JobsAgree(jobs: OrderedMap<string, MonitoringJob>, tripOf: map<string, Trip>, nextJob: nat) {
    && tripOf.Keys <= jobs.entries.Keys
    && (forall id :: id in tripOf ==> jobs.entries[id].tripId == tripOf[id].id)
    && (forall n: nat :: n >= nextJob ==> JobId(n) !in jobs.entries)
  }

  /** Replacing a stored job by one watching the same trip keeps the agreement. */
  lemma ReplaceKeepsAgree(jobs: OrderedMap<string, MonitoringJob>, tripOf: map<string, Trip>, nextJob: nat,
                          id: string, job: MonitoringJob)
    requires jobs.Valid() && JobsAgree(jobs, tripOf, nextJob)
    requires id in jobs.entries && job.tripId == jobs.entries[id].tripId
    ensures JobsAgree(jobs.Put(id, job), tripOf, nextJob)
  {
    assert jobs.Put(id, job).entries.Keys == jobs.entries.Keys;
  }

  /** Storing a job under the next fresh id, and polling it when trip is given, keeps the agreement. */
  lemma AddKeepsAgree(jobs: OrderedMap<string, MonitoringJob>, tripOf: map<string, Trip>, nextJob: nat,
                      job: MonitoringJob, trip: Option<Trip>)
    requires jobs.Valid() && JobsAgree(jobs, tripOf, nextJob)
    requires trip.Some? ==> job.tripId == trip.value.id
    ensures JobId(nextJob) !in jobs.entries
    ensures var tripOf' := if trip.Some? then tripOf[JobId(nextJob) := trip.value] else tripOf;
            JobsAgree(jobs.Put(JobId(nextJob), job), tripOf', nextJob + 1)
  {
    FreshJobId(jobs, nextJob);
  }

  /** The ids among `ks` whose job is RUNNING. */
  ghost function RunningAmong(ks: seq<string>, e: map<string, MonitoringJob>): set<string> {
    set k | k in ks && k in e && e[k].status == Running
  }

  /** Filtering the jobs of distinct ids by RUNNING keeps one job per RUNNING id. */
  lemma {:induction false} FilterRunningCount(ks: seq<string>, e: map<string, MonitoringJob>)
    requires NoDup(ks) && forall k :: k in ks ==> k in e
    ensures |FilterRunning(seq(|ks|, i requires 0 <= i < |ks| => e[ks[i]]))| == |RunningAmong(ks, e)|
  {
    var vs := seq(|ks|, i requires 0 <= i < |ks| => e[ks[i]]);
    if ks != [] {
      var rest := ks[1..];
      var vrest := seq(|rest|, i requires 0 <= i < |rest| => e[rest[i]]);
      assert vs[1..] == vrest;
      assert NoDup(rest);
      FilterRunningCount(rest, e);
      assert ks[0] !in rest;
      assert RunningAmong(ks, e) == (if e[ks[0]].status == Running then {ks[0]} else {}) + RunningAmong(rest, e);
    }
  }

  /** The parts of the scheduler that a poll reads and writes. */
  datatype PollView = PollView(jobs: OrderedMap<string, MonitoringJob>, history: OrderedMap<string, seq<TrafficAlert>>,
                               counts: map<string, nat>, trips: map<string, Trip>, recent: seq<TrafficAlert>,
                               nextJob: nat)

  /**
   * The effect of a poll past its guard, from `v` to `w`. A snapshot that failed marks the
   * job FAILED and changes nothing else. A snapshot that arrived is stored in the job, raises
   * the trip's alert unless the job already raised one, and counts the poll. Only the polled
   * job, its poll count, its trip's history and the display buffer can change.
   */
  ghost predicate FetchedStep(v: PollView, w: PollView, jobId: string, snapshot: Result<seq<Route>>, now: int) {
    && jobId in v.trips && jobId in v.counts && jobId in v.jobs.entries
    && w.trips == v.trips && w.nextJob == v.nextJob
    && w.jobs.keys == v.jobs.keys && jobId in w.jobs.entries
    && (forall id :: id != jobId ==> w.jobs.Get(id) == v.jobs.Get(id))
    && (forall t :: t != v.trips[jobId].id ==> w.history.Get(t) == v.history.Get(t))
    && (snapshot.Err? ==>
          w.jobs.entries[jobId] == v.jobs.entries[jobId].(status := Failed)
          && w.counts == v.counts && w.history == v.history && w.recent == v.recent)
    && (snapshot.Ok? ==>
          var trip := v.trips[jobId];
          SucceededPoll(v.jobs.entries[jobId], w.jobs.entries[jobId], trip, snapshot.value)
          && w.counts == v.counts[jobId := v.counts[jobId] + 1]
          && (!v.jobs.entries[jobId].alertSent && w.jobs.entries[jobId].alertSent ==>
                AlertRaised(v.recent, w.recent, v.history.Get(trip.id).GetOr([]), w.history.Get(trip.id).GetOr([]),
                            trip, snapshot.value, now))
          && (v.jobs.entries[jobId].alertSent || !w.jobs.entries[jobId].alertSent ==>
                w.history == v.history && w.recent == v.recent))
  }

  /** A failed snapshot only marks the job FAILED. */
  lemma FailedStep(v: PollView, jobId: string, msg: string, now: int)
    requires v.jobs.Valid() && jobId in v.trips && jobId in v.counts && jobId in v.jobs.entries
    ensures FetchedStep(v, v.(jobs := v.jobs.Put(jobId, v.jobs.entries[jobId].(status := Failed))), jobId, Err(msg), now)
  {
  }

  /**
   * A snapshot that arrived, from `v`: the alert step leads to `mid`, where only the trip's
   * history and the display buffer may differ, and storing the job with the routes and the new
   * alertSent and counting the poll leads to `w`.
   */
  lemma SucceededStep(v: PollView, mid: PollView, w: PollView, jobId: string, routes: seq<Route>, sent: bool, now: int)
    requires v.jobs.Valid() && jobId in v.trips && jobId in v.counts && jobId in v.jobs.entries
    requires var trip := v.trips[jobId];
             var alertSent := v.jobs.entries[jobId].alertSent;
             && mid == v.(history := mid.history, recent := mid.recent)
             && (forall t :: t != trip.id ==> mid.history.Get(t) == v.history.Get(t))
             && sent == (alertSent || exists i :: 0 <= i < |routes| && Breaches(routes[i], trip.alertThreshold))
             && (!alertSent && sent ==>
                   AlertRaised(v.recent, mid.recent, v.history.Get(trip.id).GetOr([]), mid.history.Get(trip.id).GetOr([]),
                               trip, routes, now))
             && (alertSent || !sent ==> mid.history == v.history && mid.recent == v.recent)
    requires w == mid.(jobs := v.jobs.Put(jobId, v.jobs.entries[jobId].(routes := Some(routes), alertSent := sent)),
                       counts := v.counts[jobId := v.counts[jobId] + 1])
    ensures FetchedStep(v, w, jobId, Ok(routes), now)
  {
  }

  /**
   * The scheduler's invariant: both maps are well formed, every polling job is stored under
   * a used id and watches its trip, armed timers and pending first polls belong to polling
   * jobs and exclude each other, a pending first poll has counted nothing, no job counts more
   * than 15 polls, and the display buffer holds at most 10 alerts.
   */
  ghost predicate SchedulerInv(v: PollView, timers: set<string>, awaiting: set<string>) {
    v.jobs.Valid() && v.history.Valid()
    && v.trips.Keys == v.counts.Keys && JobsAgree(v.jobs, v.trips, v.nextJob)
    && timers <= v.trips.Keys && awaiting <= v.trips.Keys && timers !! awaiting
    && (forall id :: id in awaiting ==> v.counts[id] == 0)
    && (forall id :: id in v.counts ==> v.counts[id] <= MaxPolls)
    && |v.recent| <= DisplayCapacity
  }

  /** Storing a polled job that watches the same trip, and counting the poll, keeps the invariant. */
  lemma CountKeepsInv(v: PollView, timers: set<string>, awaiting: set<string>, jobId: string, job: MonitoringJob)
    requires SchedulerInv(v, timers, awaiting) && jobId in v.trips && jobId !in awaiting && v.counts[jobId] < MaxPolls
    requires job.tripId == v.jobs.entries[jobId].tripId
    ensures SchedulerInv(v.(jobs := v.jobs.Put(jobId, job), counts := v.counts[jobId := v.counts[jobId] + 1]), timers, awaiting)
  {
    ReplaceKeepsAgree(v.jobs, v.trips, v.nextJob, jobId, job);
  }

  /** Storing a FAILED job under the next fresh id keeps the invariant. */
  lemma AddFailedKeepsInv(v: PollView, timers: set<string>, awaiting: set<string>, job: MonitoringJob)
    requires SchedulerInv(v, timers, awaiting)
    ensures JobId(v.nextJob) !in v.jobs.entries
    ensures SchedulerInv(v.(jobs := v.jobs.Put(JobId(v.nextJob), job), nextJob := v.nextJob + 1), timers, awaiting)
  {
    AddKeepsAgree(v.jobs, v.trips, v.nextJob, job, None);
  }

  /** Storing a RUNNING job under the next fresh id, with its trip, no poll counted and its first poll pending, keeps the invariant. */
  lemma AddRunningKeepsInv(v: PollView, timers: set<string>, awaiting: set<string>, job: MonitoringJob, trip: Trip)
    requires SchedulerInv(v, timers, awaiting) && job.tripId == trip.id
    ensures JobId(v.nextJob) !in v.jobs.entries
    ensures var id := JobId(v.nextJob);
            SchedulerInv(v.(jobs := v.jobs.Put(id, job), trips := v.trips[id := trip], counts := v.counts[id := 0],
                            nextJob := v.nextJob + 1), timers, awaiting + {id})
  {
    AddKeepsAgree(v.jobs, v.trips, v.nextJob, job, Some(trip));
  }

  /** Marking a polling job FAILED keeps the invariant. */
  lemma FailKeepsInv(v: PollView, timers: set<string>, awaiting: set<string>, jobId: string)
    requires SchedulerInv(v, timers, awaiting) && jobId in v.trips
    ensures SchedulerInv(v.(jobs := v.jobs.Put(jobId, v.jobs.entries[jobId].(status := Failed))), timers, awaiting)
  {
    ReplaceKeepsAgree(v.jobs, v.trips, v.nextJob, jobId, v.jobs.entries[jobId].(status := Failed));
  }

  // ---------------------------------------------------------------------------------------
  // The scheduler

  class TrafficMonitoringService {
    /** Every job ever started, by job id; finished jobs stay with status COMPLETED or FAILED. */
    var activeJobs: OrderedMap<string, MonitoringJob>
    /** Alerts raised, by trip id, oldest first. */
    var alertHistory: OrderedMap<string, seq<TrafficAlert>>
    /** The jobs whose repeating timer is armed (`monitoringIntervals`). */
    var timers: set<string>
    /** The jobs whose immediate first poll has not completed yet. */
    var awaitingFirstPoll: set<string>
    /** Per polling job: the successful polls so far, and the trip it watches. */
    var pollCounts: map<string, nat>
    var tripOf: map<string, Trip>
    /** The newest-first display buffer of recent alerts. */
    var recentAlerts: seq<TrafficAlert>
    /** Counters standing in for uuid generation. */
    var nextJob: nat
    var nextAlert: nat

    ghost predicate Valid()
      reads this
    {
      SchedulerInv(View(), timers, awaitingFirstPoll)
    }

    constructor ()
      ensures Valid()
      ensures activeJobs.keys == [] && alertHistory.keys == [] && timers == {} && recentAlerts == []
    {
      activeJobs := Empty();
      alertHistory := Empty();
      timers := {};
      awaitingFirstPoll := {};
      pollCounts := map[];
      tripOf := map[];
      recentAlerts := [];
      nextJob := 0;
      nextAlert := 0;
    }

    /** `getMonitoringJob`: the stored job, or null for an unknown id. */
    function GetMonitoringJob(jobId: string): (r: Option<MonitoringJob>)
      reads this
      ensures r.None? <==> jobId !in activeJobs.entries
      ensures r.Some? ==> r.value == activeJobs.entries[jobId]
    {
      activeJobs.Get(jobId)
    }

    /** `getActiveJobs`: exactly the stored jobs whose status is RUNNING. */
    function GetActiveJobs(): (r: seq<MonitoringJob>)
      reads this
      requires Valid()
      ensures forall j :: j in r <==> j.status == Running && exists id :: id in activeJobs.entries && activeJobs.entries[id] == j
      ensures r == FilterRunning(activeJobs.Values())
    {
      var vs := activeJobs.Values();
      assert forall j :: j in vs <==> exists id :: id in activeJobs.entries && activeJobs.entries[id] == j by {
        forall j | j in vs
          ensures exists id :: id in activeJobs.entries && activeJobs.entries[id] == j
        {
          var i :| 0 <= i < |vs| && vs[i] == j;
          assert activeJobs.entries[activeJobs.keys[i]] == j;
        }
        forall j | exists id :: id in activeJobs.entries && activeJobs.entries[id] == j
          ensures j in vs
        {
          var id :| id in activeJobs.entries && activeJobs.entries[id] == j;
          var i := IndexOf(activeJobs.keys, id);
          assert vs[i] == j;
        }
      }
      FilterRunning(vs)
    }

    /** `getAlertHistory`: the trip's alerts, or none for a trip without any. */
    function GetAlertHistory(tripId: string): (r: seq<TrafficAlert>)
      reads this
      ensures tripId !in alertHistory.entries ==> r == []
      ensures tripId in alertHistory.entries ==> r == alertHistory.entries[tripId]
    {
      alertHistory.Get(tripId).GetOr([])
    }

    /** `getSystemStatus`: the number of RUNNING jobs, the number of alerts, and the road conditions. */
    function GetSystemStatus(sim: MockTomTomTraffic): (r: (nat, nat, seq<(string, Condition)>))
      reads this, sim
      requires Valid() && sim.Valid()
      ensures r.0 == |GetActiveJobs()| && r.0 <= |activeJobs.keys|
      ensures r.0 == |set id | id in activeJobs.entries && activeJobs.entries[id].status == Running|
      ensures r.1 == TotalLength(alertHistory.Values())
      ensures forall t :: t in alertHistory.entries ==> |alertHistory.entries[t]| <= r.1
      ensures r.2 == sim.GetCurrentConditions()
    {
      var ks, e := activeJobs.keys, activeJobs.entries;
      FilterRunningCount(ks, e);
      assert activeJobs.Values() == seq(|ks|, i requires 0 <= i < |ks| => e[ks[i]]);
      assert RunningAmong(ks, e) == set id | id in e && e[id].status == Running;
      var hs := alertHistory.Values();
      assert forall t :: t in alertHistory.entries ==> |alertHistory.entries[t]| <= TotalLength(hs) by {
        forall t | t in alertHistory.entries
          ensures |alertHistory.entries[t]| <= TotalLength(hs)
        {
          var i := IndexOf(alertHistory.keys, t);
          assert hs[i] == alertHistory.entries[t];
        }
      }
      (|FilterRunning(activeJobs.Values())|, TotalLength(hs), sim.GetCurrentConditions())
    }

    /**
     * `getCurrentTrafficStatus`: the simulator's current view of each candidate route the
     * route provider computed, in order.
     */
    method GetCurrentTrafficStatus(sim: MockTomTomTraffic, candidates: seq<Route>) returns (routes: seq<Route>)
      requires forall i :: 0 <= i < |candidates| ==> candidates[i].staticDuration > 0
      ensures |routes| == |candidates|
      ensures forall i :: 0 <= i < |routes| ==> routes[i] == sim.GetTrafficFlow(candidates[i])
    {
      routes := [];
      var i := 0;
      while i < |candidates|
        invariant 0 <= i <= |candidates|
        invariant |routes| == i
        invariant forall j :: 0 <= j < i ==> routes[j] == sim.GetTrafficFlow(candidates[j])
      {
        routes := routes + [sim.GetTrafficFlow(candidates[i])];
        i := i + 1;
      }
    }

    /**
     * `startMonitoring`: a fresh job is stored RUNNING. If the initial route computation
     * threw, the job is stored FAILED and the error is returned; otherwise the job holds the
     * initial routes and its first poll is under way.
     */
    method StartMonitoring(trip: Trip, now: int, initial: Result<seq<Route>>) returns (r: Result<MonitoringJob>)
      requires Valid()
      modifies this
      ensures Valid()
      ensures var id := JobId(old(nextJob));
              id !in old(activeJobs.entries)
              && nextJob == old(nextJob) + 1
              && alertHistory == old(alertHistory) && timers == old(timers) && recentAlerts == old(recentAlerts)
              && nextAlert == old(nextAlert)
              && (initial.Err? ==>
                    r == Err(initial.msg)
                    && activeJobs == old(activeJobs).Put(id, MonitoringJob(id, trip.id, now, Failed, None, false))
                    && tripOf == old(tripOf) && pollCounts == old(pollCounts)
                    && awaitingFirstPoll == old(awaitingFirstPoll))
              && (initial.Ok? ==>
                    r == Ok(MonitoringJob(id, trip.id, now, Running, Some(initial.value), false))
                    && activeJobs == old(activeJobs).Put(id, r.value)
                    && tripOf == old(tripOf)[id := trip] && pollCounts == old(pollCounts)[id := 0]
                    && awaitingFirstPoll == old(awaitingFirstPoll) + {id})
    {
      match initial {
        case Err(msg) =>
          StartFailed(trip, now);
          r := Err(msg);
        case Ok(routes) =>
          var job := StartRunning(trip, now, routes);
          r := Ok(job);
      }
    }

    /** The failed branch of `StartMonitoring`: the job is stored as failed and nothing is scheduled for it. */
    method StartFailed(trip: Trip, now: int)
      requires Valid()
      modifies this
      ensures Valid()
      ensures var id := JobId(old(nextJob));
              id !in old(activeJobs.entries)
              && activeJobs == old(activeJobs).Put(id, MonitoringJob(id, trip.id, now, Failed, None, false))
              && nextJob == old(nextJob) + 1
              && tripOf == old(tripOf) && pollCounts == old(pollCounts) && awaitingFirstPoll == old(awaitingFirstPoll)
              && alertHistory == old(alertHistory) && timers == old(timers) && recentAlerts == old(recentAlerts)
              && nextAlert == old(nextAlert)
    {
      var id := JobId(nextJob);
      var job := MonitoringJob(id, trip.id, now, Failed, None, false);
      var v := View();
      AddFailedKeepsInv(v, timers, awaitingFirstPoll, job);
      SetView(v.(jobs := v.jobs.Put(id, job), nextJob := v.nextJob + 1), awaitingFirstPoll);
    }

    /** The successful branch of `StartMonitoring`: the job is stored as running, with its trip, and its first poll is pending. */
    method StartRunning(trip: Trip, now: int, routes: seq<Route>) returns (job: MonitoringJob)
      requires Valid()
      modifies this
      ensures Valid()
      ensures var id := JobId(old(nextJob));
              id !in old(activeJobs.entries)
              && job == MonitoringJob(id, trip.id, now, Running, Some(routes), false)
              && activeJobs == old(activeJobs).Put(id, job)
              && tripOf == old(tripOf)[id := trip] && pollCounts == old(pollCounts)[id := 0]
              && awaitingFirstPoll == old(awaitingFirstPoll) + {id}
              && nextJob == old(nextJob) + 1
              && alertHistory == old(alertHistory) && timers == old(timers) && recentAlerts == old(recentAlerts)
              && nextAlert == old(nextAlert)
    {
      var id := JobId(nextJob);
      job := MonitoringJob(id, trip.id, now, Running, Some(routes), false);
      var v := View();
      AddRunningKeepsInv(v, timers, awaitingFirstPoll, job, trip);
      SetView(v.(jobs := v.jobs.Put(id, job), trips := v.trips[id := trip], counts := v.counts[id := 0],
                 nextJob := v.nextJob + 1), awaitingFirstPoll + {id});
    }

    /**
     * `stopMonitoring`: false and no change for an unknown job; otherwise the timer is
     * cleared and the status becomes COMPLETED, whatever it was.
     */
    method StopMonitoring(jobId: string) returns (found: bool)
      requires Valid()
      modifies this
      ensures Valid()
      ensures found <==> jobId in old(activeJobs.entries)
      ensures !found ==> activeJobs == old(activeJobs) && timers == old(timers)
      ensures found ==> activeJobs == old(activeJobs).Put(jobId, old(activeJobs.entries[jobId]).(status := Completed))
                        && timers == old(timers) - {jobId}
      ensures alertHistory == old(alertHistory) && recentAlerts == old(recentAlerts)
      ensures tripOf == old(tripOf) && pollCounts == old(pollCounts) && awaitingFirstPoll == old(awaitingFirstPoll)
      ensures nextJob == old(nextJob) && nextAlert == old(nextAlert)
    {
      if jobId !in activeJobs.entries {
        return false;
      }
      timers := timers - {jobId};
      var job := activeJobs.entries[jobId];
      activeJobs := activeJobs.Put(jobId, job.(status := Completed));
      return true;
    }

    /** The scheduler's state as a poll sees it. */
    function View(): PollView
      reads this
    {
      PollView(activeJobs, alertHistory, pollCounts, tripOf, recentAlerts, nextJob)
    }

    /** Stores a whole new polling state at once; the caller has shown that it keeps the invariant. */
    method SetView(w: PollView, a: set<string>)
      requires SchedulerInv(w, timers, a)
      modifies this
      ensures Valid() && View() == w && awaitingFirstPoll == a
      ensures timers == old(timers) && nextAlert == old(nextAlert)
    {
      activeJobs, alertHistory, pollCounts, tripOf, recentAlerts, nextJob := w.jobs, w.history, w.counts, w.trips, w.recent, w.nextJob;
      awaitingFirstPoll := a;
    }

    /**
     * The effect of one poll: once 15 polls have succeeded or the job is no longer RUNNING, the
     * job is stopped without looking at traffic; otherwise the fetch takes effect and the timer
     * stays as it was.
     */
    twostate predicate Polled(jobId: string, snapshot: Result<seq<Route>>, now: int)
      reads this
    {
      && jobId in old(tripOf) && jobId in old(pollCounts) && jobId in old(activeJobs.entries)
      && (old(pollCounts[jobId]) >= MaxPolls || old(activeJobs.entries[jobId].status) != Running ==>
            activeJobs.keys == old(activeJobs.keys) && jobId in activeJobs.entries
            && (forall id :: id != jobId ==> activeJobs.Get(id) == old(activeJobs.Get(id)))
            && activeJobs.entries[jobId] == old(activeJobs.entries[jobId]).(status := Completed)
            && timers == old(timers) - {jobId} && pollCounts == old(pollCounts) && tripOf == old(tripOf)
            && alertHistory == old(alertHistory) && recentAlerts == old(recentAlerts) && nextJob == old(nextJob))
      && (old(pollCounts[jobId]) < MaxPolls && old(activeJobs.entries[jobId].status) == Running ==>
            FetchedStep(old(View()), View(), jobId, snapshot, now) && timers == old(timers))
    }

    /** One poll of a job on its timer (the `poll` closure of `startPolling`). */
    method Poll(jobId: string, snapshot: Result<seq<Route>>, now: int)
      requires Valid() && jobId in tripOf && jobId !in awaitingFirstPoll
      modifies this
      ensures Valid()
      ensures Polled(jobId, snapshot, now) && awaitingFirstPoll == old(awaitingFirstPoll)
      ensures old(activeJobs.entries[jobId].alertSent) ==> activeJobs.entries[jobId].alertSent
    {
      var job := activeJobs.entries[jobId];
      if pollCounts[jobId] >= MaxPolls || job.status != Running {
        var _ := StopMonitoring(jobId);
        return;
      }
      Fetch(jobId, snapshot, now);
    }

    /** A poll past its guard: the failed or the successful branch. */
    method Fetch(jobId: string, snapshot: Result<seq<Route>>, now: int)
      requires Valid() && jobId in tripOf && jobId !in awaitingFirstPoll && pollCounts[jobId] < MaxPolls
      modifies this
      ensures Valid()
      ensures FetchedStep(old(View()), View(), jobId, snapshot, now)
      ensures timers == old(timers) && awaitingFirstPoll == old(awaitingFirstPoll)
    {
      match snapshot {
        case Err(msg) =>
          FailPoll(jobId);
          FailedStep(old(View()), jobId, msg, now);
        case Ok(routes) =>
          SucceedPoll(jobId, routes, now);
      }
    }

    /** The branch of a poll whose route computation threw: the job is marked FAILED. */
    method FailPoll(jobId: string)
      requires Valid() && jobId in tripOf
      modifies this
      ensures Valid()
      ensures View() == old(View()).(jobs := old(activeJobs).Put(jobId, old(activeJobs.entries[jobId]).(status := Failed)))
      ensures timers == old(timers) && awaitingFirstPoll == old(awaitingFirstPoll)
    {
      var v := View();
      FailKeepsInv(v, timers, awaitingFirstPoll, jobId);
      SetView(v.(jobs := v.jobs.Put(jobId, v.jobs.entries[jobId].(status := Failed))), awaitingFirstPoll);
    }

    /** The branch of a poll whose snapshot arrived: store it, alert once, count the poll. */
    method SucceedPoll(jobId: string, routes: seq<Route>, now: int)
      requires Valid() && jobId in tripOf && jobId !in awaitingFirstPoll && pollCounts[jobId] < MaxPolls
      modifies this
      ensures Valid()
      ensures FetchedStep(old(View()), View(), jobId, Ok(routes), now)
      ensures timers == old(timers) && awaitingFirstPoll == old(awaitingFirstPoll)
    {
      ghost var v := View();
      var trip := tripOf[jobId];
      var job := activeJobs.entries[jobId].(routes := Some(routes));
      var sent := AlertOnce(trip, routes, job.alertSent, now);
      ghost var mid := View();
      job := job.(alertSent := sent);
      CountPoll(jobId, job);
      SucceededStep(v, mid, View(), jobId, routes, sent, now);
    }

    /** Raises an alert for the first breaching route unless one was already sent; returns the new alertSent. */
    method AlertOnce(trip: Trip, routes: seq<Route>, alertSent: bool, now: int) returns (sent: bool)
      requires Valid()
      modifies this
      ensures Valid()
      ensures sent == (alertSent || exists i :: 0 <= i < |routes| && Breaches(routes[i], trip.alertThreshold))
      ensures activeJobs == old(activeJobs) && timers == old(timers) && tripOf == old(tripOf)
      ensures pollCounts == old(pollCounts) && awaitingFirstPoll == old(awaitingFirstPoll) && nextJob == old(nextJob)
      ensures forall t :: t != trip.id ==> alertHistory.Get(t) == old(alertHistory.Get(t))
      ensures !alertSent && sent ==>
                AlertRaised(old(recentAlerts), recentAlerts, old(GetAlertHistory(trip.id)), GetAlertHistory(trip.id), trip, routes, now)
      ensures alertSent || !sent ==> alertHistory == old(alertHistory) && recentAlerts == old(recentAlerts)
    {
      var trigger := ShouldTriggerAlert(routes, trip.alertThreshold);
      sent := alertSent;
      if trigger.Some? && !alertSent {
        var alert := RaiseAlert(trip, routes, trigger.value, now);
        sent := true;
      }
    }

    /** Stores the polled job and counts the poll. */
    method CountPoll(jobId: string, job: MonitoringJob)
      requires Valid() && jobId in tripOf && jobId !in awaitingFirstPoll && pollCounts[jobId] < MaxPolls
      requires job.tripId == activeJobs.entries[jobId].tripId
      modifies this
      ensures Valid()
      ensures View() == old(View()).(jobs := old(activeJobs).Put(jobId, job),
                                     counts := old(pollCounts)[jobId := old(pollCounts[jobId]) + 1])
      ensures timers == old(timers) && awaitingFirstPoll == old(awaitingFirstPoll)
    {
      var v := View();
      CountKeepsInv(v, timers, awaitingFirstPoll, jobId, job);
      SetView(v.(jobs := v.jobs.Put(jobId, job), counts := v.counts[jobId := v.counts[jobId] + 1]), awaitingFirstPoll);
    }

    /** `createAlert` and `sendAlert`: the alert is shown in the display buffer and appended to the trip's history. */
    method RaiseAlert(trip: Trip, routes: seq<Route>, trigger: Trigger, now: int) returns (alert: TrafficAlert)
      requires Valid()
      requires FirstBreachAt(routes, trip.alertThreshold, trigger.index)
      requires trigger.route == routes[trigger.index] && trigger.reason == BreachReason(trigger.route, trip.alertThreshold)
      modifies this
      ensures Valid()
      ensures IsAlertFor(alert, trip, routes, now)
      ensures recentAlerts == PushRecent(alert, old(recentAlerts))
      ensures alertHistory == old(alertHistory).Put(trip.id, old(GetAlertHistory(trip.id)) + [alert])
      ensures activeJobs == old(activeJobs) && timers == old(timers) && tripOf == old(tripOf)
      ensures pollCounts == old(pollCounts) && awaitingFirstPoll == old(awaitingFirstPoll) && nextJob == old(nextJob)
    {
      var route := trigger.route;
      alert := TrafficAlert(AlertId(nextAlert), trip.id, now, route.name,
                            Round(route.delay as real / 60.0), trigger.reason, routes, None);
      assert IsAlertFor(alert, trip, routes, now) by {
        assert FirstBreachAt(routes, trip.alertThreshold, trigger.index);
      }
      nextAlert := nextAlert + 1;
      recentAlerts := PushRecent(alert, recentAlerts);
      alertHistory := alertHistory.Put(trip.id, GetAlertHistory(trip.id) + [alert]);
    }

    /**
     * The immediate first poll of a started job, completing. Its guard ran while
     * `startMonitoring` was still under way, when the job was RUNNING with no poll counted, so
     * it passed and is not evaluated again: the fetch takes effect even if the job has been
     * stopped since. The repeating timer is armed afterwards, whatever the job's status.
     */
    method CompleteFirstPoll(jobId: string, snapshot: Result<seq<Route>>, now: int)
      requires Valid() && jobId in awaitingFirstPoll
      modifies this
      ensures Valid()
      ensures FetchedStep(old(View()), View(), jobId, snapshot, now)
      ensures timers == old(timers) + {jobId} && awaitingFirstPoll == old(awaitingFirstPoll) - {jobId}
    {
      ghost var v := View();
      awaitingFirstPoll := awaitingFirstPoll - {jobId};
      Fetch(jobId, snapshot, now);
      assert FetchedStep(v, View(), jobId, snapshot, now);
      timers := timers + {jobId};
    }

    /** One firing of a job's two-minute timer: one poll. */
    method Tick(jobId: string, snapshot: Result<seq<Route>>, now: int)
      requires Valid() && jobId in timers
      modifies this
      ensures Valid()
      ensures Polled(jobId, snapshot, now) && awaitingFirstPoll == old(awaitingFirstPoll)
      ensures jobId in activeJobs.entries
      ensures old(activeJobs.entries[jobId].status) != Running ==>
                activeJobs.entries[jobId].status == Completed && jobId !in timers
    {
      Poll(jobId, snapshot, now);
    }
  }
}
