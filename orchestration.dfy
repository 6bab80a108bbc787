/**
 * The coordinator of the services (`OrchestrationService`): it starts monitoring jobs for
 * users' active trips, runs the minute-by-minute check that starts jobs for trips entering
 * their window and forgets finished jobs, turns traffic breaches into alerts behind the
 * user and cooldown checks, and stops everything on shutdown.
 *
 * The services are the model's own classes. What the route providers and the simulator
 * return for a trip is a parameter: `current(t)` the routes as they are now, and
 * `initial(t)` the outcome of the initial route computation when a job starts.
 */
module Orchestration {
  import opened Wrappers
  import opened Types
  import opened OrderedMaps
  import Seqs
  import Trips
  import Users
  import Monitoring
  import Notifications

  /** The outcome of `handleTrafficAlert`, whose errors are logged and swallowed. */
  datatype AlertOutcome =
    | NoUser
    | Suppressed
    | CreateFailed(msg: string)
    | Created(alert: TrafficAlert, delivered: bool)

  /**
   * The route `routes.reduce((worst, current) => current.delay > worst.delay ? current : worst)`
   * picks: one with the largest delay, the earliest of those.
   */
  function WorstIndex(routes: seq<Route>): (w: nat)
    requires routes != []
    ensures w < |routes|
    ensures forall j :: 0 <= j < |routes| ==> routes[j].delay <= routes[w].delay
    ensures forall j :: 0 <= j < w ==> routes[j].delay < routes[w].delay
  {
    if |routes| == 1 then 0
    else
      var k := |routes| - 1;
      var w := WorstIndex(routes[..k]);
      assert forall j :: 0 <= j < k ==> routes[..k][j] == routes[j];
      if routes[k].delay > routes[w].delay then k else w
  }

  /** The ids of the jobs, as a set. */
  function JobIds(jobs: seq<MonitoringJob>): (r: set<string>)
    ensures r == set j | j in jobs :: j.id
  {
    if jobs == [] then {}
    else
      var k := |jobs| - 1;
      assert forall j :: j in jobs <==> j in jobs[..k] || j == jobs[k] by {
        assert jobs == jobs[..k] + [jobs[k]];
      }
      JobIds(jobs[..k]) + {jobs[k].id}
  }

  /** The trip of each job, in order. */
  function JobTripIds(jobs: seq<MonitoringJob>): (r: seq<string>)
    ensures |r| == |jobs| && forall k :: 0 <= k < |jobs| ==> r[k] == jobs[k].tripId
  {
    seq(|jobs|, k requires 0 <= k < |jobs| => jobs[k].tripId)
  }

  /**
   * The trips `startUserMonitoring` gets a job for, in the order of `ts`: the active ones
   * whose initial route computation succeeds.
   */
  function StartableIds(ts: seq<Trip>, initial: Trip -> Result<seq<Route>>): seq<string> {
    if ts == [] then []
    else
      var k := |ts| - 1;
      StartableIds(ts[..k], initial) + (if ts[k].isActive && initial(ts[k]).Ok? then [ts[k].id] else [])
  }

  lemma {:induction false} StartableIdsAppend(a: seq<Trip>, b: seq<Trip>, initial: Trip -> Result<seq<Route>>)
    ensures StartableIds(a + b, initial) == StartableIds(a, initial) + StartableIds(b, initial)
    decreases |b|
  {
    if b == [] {
      assert a + b == a;
    } else {
      var k := |b| - 1;
      assert (a + b)[..|a + b| - 1] == a + b[..k];
      StartableIdsAppend(a, b[..k], initial);
    }
  }

  /**
   * Which trips are startable does not depend on their order, so the jobs of
   * `startUserMonitoring` are determined by the user's trips whatever order they are listed in.
   */
  lemma {:induction false} StartableIdsPermutation(a: seq<Trip>, b: seq<Trip>, initial: Trip -> Result<seq<Route>>)
    requires multiset(a) == multiset(b)
    ensures multiset(StartableIds(a, initial)) == multiset(StartableIds(b, initial))
    decreases |a|
  {
    if a == [] {
      assert |b| == |multiset(b)| == 0;
    } else {
      var k := |a| - 1;
      var x := a[k];
      assert a == a[..k] + [x];
      assert multiset(a) == multiset(a[..k]) + multiset{x};
      assert x in multiset(b);
      var i :| 0 <= i < |b| && b[i] == x;
      var rest := b[..i] + b[i + 1..];
      MultisetRemoveAt(b, i);
      StartableIdsPermutation(a[..k], rest, initial);
      StartableIdsRemoveAt(b, i, initial);
      StartableIdsAppend(a[..k], [x], initial);
    }
  }

  /** Taking element i out of a sequence takes one copy of it out of the multiset. */
  lemma MultisetRemoveAt<T>(b: seq<T>, i: nat)
    requires i < |b|
    ensures multiset(b[..i] + b[i + 1..]) == multiset(b) - multiset{b[i]}
  {
    assert b == b[..i] + [b[i]] + b[i + 1..];
    assert multiset(b) == multiset(b[..i]) + multiset{b[i]} + multiset(b[i + 1..]);
  }

  /** The startable trips of a list are those before trip i, trip i's own, and those after it. */
  lemma StartableIdsRemoveAt(b: seq<Trip>, i: nat, initial: Trip -> Result<seq<Route>>)
    requires i < |b|
    ensures StartableIds(b, initial)
              == StartableIds(b[..i], initial) + StartableIds([b[i]], initial) + StartableIds(b[i + 1..], initial)
    ensures StartableIds(b[..i] + b[i + 1..], initial) == StartableIds(b[..i], initial) + StartableIds(b[i + 1..], initial)
  {
    SplitAt(b, i);
    StartableIdsSplit(b[..i], b[i], b[i + 1..], initial);
  }

  lemma SplitAt<T>(b: seq<T>, i: nat)
    requires i < |b|
    ensures b == b[..i] + [b[i]] + b[i + 1..]
  {
  }

  lemma StartableIdsSplit(front: seq<Trip>, x: Trip, back: seq<Trip>, initial: Trip -> Result<seq<Route>>)
    ensures StartableIds(front + [x] + back, initial)
              == StartableIds(front, initial) + StartableIds([x], initial) + StartableIds(back, initial)
    ensures StartableIds(front + back, initial) == StartableIds(front, initial) + StartableIds(back, initial)
  {
    StartableIdsAppend(front + [x], back, initial);
    StartableIdsAppend(front, [x], initial);
    StartableIdsAppend(front, back, initial);
  }

  /** One more listed trip: its id joins the started ones exactly when it is active and its start succeeds. */
  lemma StartableStep(trips: seq<Trip>, i: nat, initial: Trip -> Result<seq<Route>>,
                      jobs: seq<MonitoringJob>, jobs': seq<MonitoringJob>)
    requires i < |trips| && JobTripIds(jobs) == StartableIds(trips[..i], initial)
    requires !(trips[i].isActive && initial(trips[i]).Ok?) ==> jobs' == jobs
    requires trips[i].isActive && initial(trips[i]).Ok? ==>
               |jobs'| == |jobs| + 1 && jobs'[..|jobs|] == jobs && jobs'[|jobs|].tripId == trips[i].id
    ensures JobTripIds(jobs') == StartableIds(trips[..i + 1], initial)
  {
    assert trips[..i + 1][..i] == trips[..i];
    if trips[i].isActive && initial(trips[i]).Ok? {
      assert JobTripIds(jobs') == JobTripIds(jobs) + [trips[i].id];
    }
  }

  /** The trip of each trip record, in order. */
  function TripIds(ts: seq<Trip>): (r: seq<string>)
    ensures |r| == |ts| && forall k :: 0 <= k < |ts| ==> r[k] == ts[k].id
  {
    seq(|ts|, k requires 0 <= k < |ts| => ts[k].id)
  }

  /** The trips of the jobs stored in `jobs` and not in `jobs0`. */
  function NewJobTrips(jobs: map<string, MonitoringJob>, jobs0: map<string, MonitoringJob>): set<string> {
    set id | id in jobs && id !in jobs0 :: jobs[id].tripId
  }

  /** The trips of the tracked jobs whose status is RUNNING. */
  function RunningTripIds(jobs: map<string, MonitoringJob>, tracked: set<string>): set<string> {
    set id | id in tracked && id in jobs && jobs[id].status == Running :: jobs[id].tripId
  }

  /**
   * What the start loop of the tick keeps, against the snapshot `jobs0` of the scheduler's
   * jobs, the tracked set `tracked0` and the trips `running0` running when the tick began:
   * old jobs are untouched, and each newly tracked job is a fresh RUNNING job for a trip that
   * was not running and has no other new job.
   */
  ghost predicate TickProgress(jobs: map<string, MonitoringJob>, tracked: set<string>, tracked0: set<string>,
                               jobs0: map<string, MonitoringJob>, running0: set<string>)
  {
    tracked0 <= tracked && tracked <= jobs.Keys
    && (forall id :: id in jobs0 ==> id in jobs && jobs[id] == jobs0[id])
    && (forall id :: id in tracked - tracked0 ==>
          id !in jobs0 && jobs[id].status == Running && jobs[id].tripId !in running0)
    && (forall id1, id2 :: (id1 in tracked - tracked0 && id2 in tracked - tracked0
                            && jobs[id1].tripId == jobs[id2].tripId) ==> id1 == id2)
  }

  /** The tracked RUNNING jobs of trips that were not running when the tick began are new. */
  lemma RunningSinceTick(jobs: map<string, MonitoringJob>, tracked: set<string>, tracked0: set<string>,
                         jobs0: map<string, MonitoringJob>, running0: set<string>)
    requires TickProgress(jobs, tracked, tracked0, jobs0, running0)
    requires tracked0 <= jobs0.Keys
    requires running0 == set id | id in tracked0 && jobs0[id].status == Running :: jobs0[id].tripId
    ensures running0 <= RunningTripIds(jobs, tracked)
    ensures forall id :: id in tracked && id in jobs && jobs[id].status == Running && jobs[id].tripId !in running0 ==>
              id !in jobs0
  {
    forall t | t in running0
      ensures t in RunningTripIds(jobs, tracked)
    {
      var id :| id in tracked0 && jobs0[id].status == Running && jobs0[id].tripId == t;
      assert id in tracked && jobs[id] == jobs0[id];
    }
  }

  /**
   * The tick as a whole: with `started` the tracked set after the start loop and `tracked`
   * what remains of it once the finished jobs are forgotten.
   */
  lemma TickOutcome(jobs: map<string, MonitoringJob>, started: set<string>, tracked: set<string>,
                    tracked0: set<string>, jobs0: map<string, MonitoringJob>, running0: set<string>,
                    due: seq<Trip>, initial: Trip -> Result<seq<Route>>)
    requires TickProgress(jobs, started, tracked0, jobs0, running0)
    requires TickStarted(jobs, started, jobs0, running0, due, initial)
    requires tracked0 <= jobs0.Keys
    requires running0 == set id | id in tracked0 && jobs0[id].status == Running :: jobs0[id].tripId
    requires tracked == set id | id in started && jobs[id].status != Completed && jobs[id].status != Failed
    ensures forall id :: id in tracked0 && jobs0[id].status == Running ==> id in tracked
    ensures forall d :: d in due && d.id !in running0 ==> d.id in NewJobTrips(jobs, jobs0)
    ensures forall d :: d in due && d.id !in running0 && initial(d).Ok? ==> d.id in RunningTripIds(jobs, tracked)
  {
    forall id | id in tracked0 && jobs0[id].status == Running
      ensures id in tracked
    {
      assert id in started && jobs[id] == jobs0[id];
    }
    forall d | d in due && d.id !in running0
      ensures d.id in NewJobTrips(jobs, jobs0)
      ensures initial(d).Ok? ==> d.id in RunningTripIds(jobs, tracked)
    {
      var k :| 0 <= k < |due| && due[k] == d;
      if initial(d).Ok? {
        var id :| id in started && id in jobs && jobs[id].status == Running && jobs[id].tripId == d.id;
        assert id in tracked;
      }
    }
  }

  /** Storing and perhaps tracking job `n` for a trip with no tracked RUNNING job keeps the loop's invariant. */
  lemma TickProgressStep(jobs1: map<string, MonitoringJob>, tracked1: set<string>,
                         jobs: map<string, MonitoringJob>, tracked: set<string>,
                         tracked0: set<string>, jobs0: map<string, MonitoringJob>, running0: set<string>,
                         trip: Trip, n: string)
    requires TickProgress(jobs1, tracked1, tracked0, jobs0, running0)
    requires trip.id !in RunningTripIds(jobs1, tracked1) && trip.id !in running0
    requires n !in jobs1 && n in jobs && jobs == jobs1[n := jobs[n]] && jobs[n].tripId == trip.id
    requires tracked == tracked1 || (tracked == tracked1 + {n} && jobs[n].status == Running)
    ensures TickProgress(jobs, tracked, tracked0, jobs0, running0)
  {
    assert forall id :: id in tracked1 - tracked0 ==> jobs1[id].tripId != trip.id;
  }

  /**
   * What the start loop of the tick has done for the due trips `done` it visited, the
   * scheduler having held `jobs0` and the trips `running0` having been running when the tick
   * began: every job gained is for one of them that was not running; each of them that was
   * not running got a job; and each of those whose start succeeds has a tracked RUNNING job.
   */
  ghost predicate TickStarted(jobs: map<string, MonitoringJob>, tracked: set<string>, jobs0: map<string, MonitoringJob>,
                              running0: set<string>, done: seq<Trip>, initial: Trip -> Result<seq<Route>>)
  {
    (forall id :: id in jobs && id !in jobs0 ==> jobs[id].tripId !in running0 && jobs[id].tripId in TripIds(done))
    && (forall k :: 0 <= k < |done| && done[k].id !in running0 ==> done[k].id in NewJobTrips(jobs, jobs0))
    && (forall k :: 0 <= k < |done| && done[k].id !in running0 && initial(done[k]).Ok? ==>
          done[k].id in RunningTripIds(jobs, tracked))
  }

  /** Storing job `n` for a trip that was not running, tracked when its start succeeded, extends the loop's progress. */
  lemma TickStartedStep(jobs1: map<string, MonitoringJob>, tracked1: set<string>,
                        jobs: map<string, MonitoringJob>, tracked: set<string>,
                        jobs0: map<string, MonitoringJob>, running0: set<string>, done: seq<Trip>, trip: Trip,
                        initial: Trip -> Result<seq<Route>>, n: string)
    requires TickStarted(jobs1, tracked1, jobs0, running0, done, initial)
    requires jobs0.Keys <= jobs1.Keys && n !in jobs1 && n in jobs && jobs == jobs1[n := jobs[n]] && jobs[n].tripId == trip.id
    requires tracked1 <= tracked <= tracked1 + {n}
    requires trip.id !in running0
    requires initial(trip).Ok? ==> n in tracked && jobs[n].status == Running
    ensures TickStarted(jobs, tracked, jobs0, running0, done + [trip], initial)
  {
    var done' := done + [trip];
    assert TripIds(done') == TripIds(done) + [trip.id];
    NewJobTripsStep(jobs1, jobs, jobs0, trip, n);
    RunningTripIdsStep(jobs1, tracked1, jobs, tracked, trip, n);
  }

  /** Storing job `n` for `trip` adds exactly that trip to the new jobs' trips. */
  lemma NewJobTripsStep(jobs1: map<string, MonitoringJob>, jobs: map<string, MonitoringJob>,
                        jobs0: map<string, MonitoringJob>, trip: Trip, n: string)
    requires jobs0.Keys <= jobs1.Keys && n !in jobs1 && n in jobs && jobs == jobs1[n := jobs[n]] && jobs[n].tripId == trip.id
    ensures NewJobTrips(jobs, jobs0) == NewJobTrips(jobs1, jobs0) + {trip.id}
  {
  }

  /** Storing job `n` and perhaps tracking it keeps every running trip running, and runs `trip` when `n` is tracked and RUNNING. */
  lemma RunningTripIdsStep(jobs1: map<string, MonitoringJob>, tracked1: set<string>,
                           jobs: map<string, MonitoringJob>, tracked: set<string>, trip: Trip, n: string)
    requires n !in jobs1 && n in jobs && jobs == jobs1[n := jobs[n]] && jobs[n].tripId == trip.id
    requires tracked1 <= tracked <= tracked1 + {n}
    ensures RunningTripIds(jobs1, tracked1) <= RunningTripIds(jobs, tracked)
    ensures n in tracked && jobs[n].status == Running ==> trip.id in RunningTripIds(jobs, tracked)
  {
  }

  /** Skipping a trip that has a tracked RUNNING job, which is new when the trip was not running before, extends the loop's progress. */
  lemma TickSkipStep(jobs: map<string, MonitoringJob>, tracked: set<string>, jobs0: map<string, MonitoringJob>,
                     running0: set<string>, done: seq<Trip>, trip: Trip, initial: Trip -> Result<seq<Route>>)
    requires TickStarted(jobs, tracked, jobs0, running0, done, initial)
    requires trip.id in RunningTripIds(jobs, tracked)
    requires forall id :: id in tracked && id in jobs && jobs[id].status == Running && jobs[id].tripId !in running0 ==>
               id !in jobs0
    ensures TickStarted(jobs, tracked, jobs0, running0, done + [trip], initial)
  {
    var done' := done + [trip];
    assert TripIds(done') == TripIds(done) + [trip.id];
    if trip.id !in running0 {
      var id :| id in tracked && id in jobs && jobs[id].status == Running && jobs[id].tripId == trip.id;
      assert trip.id in NewJobTrips(jobs, jobs0);
    }
  }

  class OrchestrationService {
    const tripService: Trips.TripService
    const userService: Users.UserService
    const trafficService: Monitoring.TrafficMonitoringService
    const notificationService: Notifications.NotificationService
    /** The ids of the jobs in `activeMonitoringJobs`; their state lives in the scheduler. */
    var tracked: set<string>
    /** Whether the minute timer of `startPeriodicMonitoring` is armed. */
    var periodicArmed: bool

    ghost predicate Valid()
      reads this, tripService, userService, trafficService, notificationService
    {
      tripService.Valid() && userService.Valid() && trafficService.Valid() && notificationService.Valid()
      && tracked <= trafficService.activeJobs.entries.Keys
    }

    constructor ()
      ensures Valid() && tracked == {} && !periodicArmed
      ensures fresh(tripService) && fresh(userService) && fresh(trafficService) && fresh(notificationService)
    {
      tripService := new Trips.TripService();
      userService := new Users.UserService();
      trafficService := new Monitoring.TrafficMonitoringService();
      notificationService := new Notifications.NotificationService();
      tracked := {};
      periodicArmed := false;
    }

    /** The status the scheduler holds for a tracked job. */
    function StatusOf(jobId: string): JobStatus
      reads this, trafficService
      requires jobId in trafficService.activeJobs.entries
    {
      trafficService.activeJobs.entries[jobId].status
    }

    /** The trips that have a tracked job in status RUNNING. */
    function RunningTrips(): (r: set<string>)
      reads this, trafficService
      requires tracked <= trafficService.activeJobs.entries.Keys
      ensures forall id :: id in tracked && trafficService.activeJobs.entries[id].status == Running ==>
                trafficService.activeJobs.entries[id].tripId in r
      ensures forall t :: t in r ==> exists id :: id in tracked && trafficService.activeJobs.entries[id].tripId == t
                                                 && trafficService.activeJobs.entries[id].status == Running
    {
      RunningTripIds(trafficService.activeJobs.entries, tracked)
    }

    /** Some tracked job for the trip is RUNNING. */
    predicate RunningFor(tripId: string)
      reads this, trafficService
      requires tracked <= trafficService.activeJobs.entries.Keys
    {
      tripId in RunningTrips()
    }

    /** Some stored trip with this id is active. */
    predicate IsActiveTripId(tripId: string)
      reads this, tripService
    {
      exists id :: id in tripService.trips.entries && tripService.trips.entries[id].isActive
                   && tripService.trips.entries[id].id == tripId
    }

    /**
     * `handleTrafficAlert`: nothing happens for an unknown user or while the trip and road
     * are in their cooldown; otherwise one alert is created and delivery is attempted.
     */
    method HandleTrafficAlert(trip: Trip, triggered: Route, allRoutes: seq<Route>, now: int, minuteOfDay: nat)
        returns (o: AlertOutcome)
      requires Valid() && minuteOfDay < 1440
      modifies notificationService
      ensures Valid()
      ensures o.NoUser? <==> trip.userId !in userService.users.entries
      ensures o.Suppressed? <==> trip.userId in userService.users.entries
                                 && !old(notificationService.ShouldCreateAlert(trip.id, triggered.name, now))
      ensures o.CreateFailed? <==> trip.userId in userService.users.entries
                                   && old(notificationService.ShouldCreateAlert(trip.id, triggered.name, now))
                                   && Notifications.AlertValidationError(trip, triggered).Some?
      ensures !o.Created? ==> notificationService.alertHistory == old(notificationService.alertHistory)
                              && notificationService.recentAlerts == old(notificationService.recentAlerts)
      ensures o.Created? ==>
                o.alert.tripId == trip.id && o.alert.triggeredBy == triggered.name && o.alert.routes == allRoutes
                && notificationService.alertHistory
                     == old(notificationService.alertHistory).Put(trip.id, old(notificationService.History(trip.id)) + [o.alert])
                && notificationService.recentAlerts
                     == Notifications.Prune(old(notificationService.recentAlerts)
                                            + [Notifications.RateEntry(trip.id, triggered.name, now)], now)
                && o.delivered == Notifications.SendNotification(userService.users.entries[trip.userId], minuteOfDay)
    {
      var user := userService.GetUserById(trip.userId);
      if user.None? {
        return NoUser;
      }
      if !notificationService.ShouldCreateAlert(trip.id, triggered.name, now) {
        return Suppressed;
      }
      var alert := notificationService.CreateAlert(trip, triggered, allRoutes, now);
      if alert.Err? {
        return CreateFailed(alert.msg);
      }
      var delivered := Notifications.SendNotification(user.value, minuteOfDay);
      return Created(alert.value, delivered);
    }

    /** The body of `checkAllTripsForAlerts` for one trip and its current routes. */
    method CheckTrip(trip: Trip, routes: seq<Route>, now: int, minuteOfDay: nat)
      requires Valid() && minuteOfDay < 1440
      modifies notificationService
      ensures Valid()
      ensures forall x :: x != trip.id ==> notificationService.History(x) == old(notificationService.History(x))
      ensures old(notificationService.History(trip.id)) <= notificationService.History(trip.id)
      ensures |notificationService.History(trip.id)| <= |old(notificationService.History(trip.id))| + 1
      ensures |notificationService.History(trip.id)| == |old(notificationService.History(trip.id))| + 1 <==>
                Notifications.AlertWarranted(trip, routes)
                && trip.userId in userService.users.entries
                && old(notificationService.ShouldCreateAlert(trip.id, routes[WorstIndex(routes)].name, now))
                && Notifications.AlertValidationError(trip, routes[WorstIndex(routes)]).None?
      ensures |notificationService.History(trip.id)| == |old(notificationService.History(trip.id))| + 1 ==>
                var a := notificationService.History(trip.id)[|notificationService.History(trip.id)| - 1];
                routes != [] && a.tripId == trip.id && a.triggeredBy == routes[WorstIndex(routes)].name
                && a.routes == routes
                && notificationService.recentAlerts
                     == Notifications.Prune(old(notificationService.recentAlerts)
                                            + [Notifications.RateEntry(trip.id, routes[WorstIndex(routes)].name, now)], now)
      ensures |notificationService.History(trip.id)| == |old(notificationService.History(trip.id))| ==>
                notificationService.recentAlerts == old(notificationService.recentAlerts)
    {
      var shouldAlert := Notifications.ShouldTriggerAlert(trip, routes);
      if shouldAlert {
        var worst := routes[WorstIndex(routes)];
        var o := HandleTrafficAlert(trip, worst, routes, now, minuteOfDay);
      }
    }

    /**
     * `checkAllTripsForAlerts`: every active trip of every user is checked against its current
     * routes; only those trips can gain an alert, and histories only grow.
     */
    method CheckAllTripsForAlerts(now: int, minuteOfDay: nat, current: Trip -> seq<Route>)
      requires Valid() && minuteOfDay < 1440
      modifies notificationService
      ensures Valid()
      ensures forall x :: old(notificationService.History(x)) <= notificationService.History(x)
      ensures forall x :: !IsActiveTripId(x) ==> notificationService.History(x) == old(notificationService.History(x))
    {
      ghost var h0 := notificationService.alertHistory;
      var users := userService.GetAllUsers();
      var u := 0;
      while u < |users|
        invariant 0 <= u <= |users|
        invariant Valid() && AlertsGrewSince(h0)
      {
        CheckUserTrips(users[u].id, now, minuteOfDay, current, h0);
        u := u + 1;
      }
    }

    /**
     * Since the alert history was `h0`, every trip's alerts have only grown, and only active
     * trips have gained any.
     */
    ghost predicate AlertsGrewSince(h0: OrderedMap<string, seq<TrafficAlert>>)
      reads this, tripService, notificationService
    {
      forall x :: h0.Get(x).GetOr([]) <= notificationService.History(x)
                  && (!IsActiveTripId(x) ==> notificationService.History(x) == h0.Get(x).GetOr([]))
    }

    /** The inner loop of `checkAllTripsForAlerts`: the active trips of one user. */
    method CheckUserTrips(userId: string, now: int, minuteOfDay: nat, current: Trip -> seq<Route>,
                          ghost h0: OrderedMap<string, seq<TrafficAlert>>)
      requires Valid() && minuteOfDay < 1440 && AlertsGrewSince(h0)
      modifies notificationService
      ensures Valid() && AlertsGrewSince(h0)
    {
      var trips := tripService.GetTripsByUserId(userId);
      var i := 0;
      while i < |trips|
        invariant 0 <= i <= |trips|
        invariant Valid() && AlertsGrewSince(h0)
      {
        CheckListedTrip(trips, userId, i, now, minuteOfDay, current, h0);
        i := i + 1;
      }
    }

    /** The loop body of the inner loop: an active listed trip is checked. */
    method CheckListedTrip(trips: seq<Trip>, userId: string, i: nat, now: int, minuteOfDay: nat,
                           current: Trip -> seq<Route>, ghost h0: OrderedMap<string, seq<TrafficAlert>>)
      requires Valid() && minuteOfDay < 1440 && AlertsGrewSince(h0) && i < |trips|
      requires multiset(trips) == multiset(Trips.PresentTrips(tripService.UserTripIds(userId), tripService.trips.entries))
      modifies notificationService
      ensures Valid() && AlertsGrewSince(h0)
    {
      if trips[i].isActive {
        ActiveListedTrip(trips, userId, i);
        CheckTrip(trips[i], current(trips[i]), now, minuteOfDay);
      }
    }

    /** A trip `getTripsByUserId` listed is stored, so when it is active its id is an active trip id. */
    lemma ActiveListedTrip(trips: seq<Trip>, userId: string, i: nat)
      requires i < |trips| && trips[i].isActive
      requires multiset(trips) == multiset(Trips.PresentTrips(tripService.UserTripIds(userId), tripService.trips.entries))
      ensures IsActiveTripId(trips[i].id)
    {
      assert trips[i] in multiset(trips);
      var present := Trips.PresentTrips(tripService.UserTripIds(userId), tripService.trips.entries);
      assert trips[i] in present;
    }

    /** `startPeriodicMonitoring`: (re)arms the minute timer. */
    method StartPeriodicMonitoring()
      modifies this
      ensures periodicArmed && tracked == old(tracked)
    {
      periodicArmed := true;
    }

    /**
     * What the loop of `startUserMonitoring` keeps against the tracked set `tracked0` and the
     * jobs `jobs0` it began with: the started `jobs` are exactly the new tracked ids, each a
     * fresh RUNNING job stored in the scheduler for an active trip, and old jobs are untouched.
     */
    ghost predicate StartedJobs(tracked0: set<string>, jobs0: map<string, MonitoringJob>, jobs: seq<MonitoringJob>)
      reads this, trafficService, tripService
    {
      var entries := trafficService.activeJobs.entries;
      tracked == tracked0 + JobIds(jobs)
      && (forall j :: j in jobs ==>
            j.status == Running && j.id !in jobs0 && j.id in entries && entries[j.id] == j
            && IsActiveTripId(j.tripId))
      && (forall id :: id in jobs0 ==> id in entries && entries[id] == jobs0[id])
    }

    /**
     * `startUserMonitoring`: a job is started for each active trip of the user; a start that
     * fails is skipped and not tracked.
     */
    method StartUserMonitoring(userId: string, now: int, initial: Trip -> Result<seq<Route>>)
        returns (jobs: seq<MonitoringJob>)
      requires Valid()
      modifies this, trafficService
      ensures Valid()
      ensures multiset(JobTripIds(jobs))
                == multiset(StartableIds(Trips.PresentTrips(tripService.UserTripIds(userId), tripService.trips.entries), initial))
      ensures tracked == old(tracked) + set j | j in jobs :: j.id
      ensures forall j :: j in jobs ==>
                j.status == Running && j.id !in old(trafficService.activeJobs.entries)
                && j.id in trafficService.activeJobs.entries && trafficService.activeJobs.entries[j.id] == j
                && IsActiveTripId(j.tripId)
      ensures forall id :: id in old(trafficService.activeJobs.entries) ==>
                id in trafficService.activeJobs.entries
                && trafficService.activeJobs.entries[id] == old(trafficService.activeJobs.entries[id])
    {
      ghost var tracked0, jobs0 := tracked, trafficService.activeJobs.entries;
      var trips := tripService.GetTripsByUserId(userId);
      jobs := [];
      var i := 0;
      while i < |trips|
        invariant 0 <= i <= |trips|
        invariant Valid() && StartedJobs(tracked0, jobs0, jobs)
        invariant JobTripIds(jobs) == StartableIds(trips[..i], initial)
      {
        jobs := StartListedTrip(trips, userId, i, now, initial, jobs, tracked0, jobs0);
        i := i + 1;
      }
      StartedAll(trips, userId, initial, jobs);
    }

    /** The loop of `startUserMonitoring` has covered every listed trip. */
    lemma StartedAll(trips: seq<Trip>, userId: string, initial: Trip -> Result<seq<Route>>, jobs: seq<MonitoringJob>)
      requires multiset(trips) == multiset(Trips.PresentTrips(tripService.UserTripIds(userId), tripService.trips.entries))
      requires JobTripIds(jobs) == StartableIds(trips[..|trips|], initial)
      ensures multiset(JobTripIds(jobs))
                == multiset(StartableIds(Trips.PresentTrips(tripService.UserTripIds(userId), tripService.trips.entries), initial))
    {
      assert trips[..|trips|] == trips;
      StartableIdsPermutation(trips, Trips.PresentTrips(tripService.UserTripIds(userId), tripService.trips.entries), initial);
    }

    /** The loop body of `startUserMonitoring`: listed trip i is started when it is active. */
    method StartListedTrip(trips: seq<Trip>, userId: string, i: nat, now: int, initial: Trip -> Result<seq<Route>>,
                           jobs: seq<MonitoringJob>, ghost tracked0: set<string>, ghost jobs0: map<string, MonitoringJob>)
        returns (jobs': seq<MonitoringJob>)
      requires Valid() && StartedJobs(tracked0, jobs0, jobs) && i < |trips|
      requires multiset(trips) == multiset(Trips.PresentTrips(tripService.UserTripIds(userId), tripService.trips.entries))
      requires JobTripIds(jobs) == StartableIds(trips[..i], initial)
      modifies this, trafficService
      ensures Valid() && StartedJobs(tracked0, jobs0, jobs')
      ensures JobTripIds(jobs') == StartableIds(trips[..i + 1], initial)
    {
      jobs' := jobs;
      if trips[i].isActive {
        ActiveListedTrip(trips, userId, i);
        jobs' := StartTripJob(trips[i], now, initial(trips[i]), jobs, tracked0, jobs0);
      }
      StartableStep(trips, i, initial, jobs, jobs');
    }

    /** The loop body of `startUserMonitoring` for one active trip. */
    method StartTripJob(trip: Trip, now: int, initial: Result<seq<Route>>, jobs: seq<MonitoringJob>,
                        ghost tracked0: set<string>, ghost jobs0: map<string, MonitoringJob>)
        returns (jobs': seq<MonitoringJob>)
      requires Valid() && StartedJobs(tracked0, jobs0, jobs) && IsActiveTripId(trip.id)
      modifies this, trafficService
      ensures Valid() && StartedJobs(tracked0, jobs0, jobs')
      ensures initial.Err? ==> jobs' == jobs
      ensures initial.Ok? ==> |jobs'| == |jobs| + 1 && jobs'[..|jobs|] == jobs && jobs'[|jobs|].tripId == trip.id
    {
      var r := StartJob(trip, now, initial);
      jobs' := jobs;
      if r.Ok? {
        jobs' := jobs + [r.value];
        Seqs.PrefixOfAppend(jobs, r.value);
      }
    }

    /** Starting one job through the scheduler and tracking it when the start succeeded. */
    method StartJob(trip: Trip, now: int, initial: Result<seq<Route>>) returns (r: Result<MonitoringJob>)
      requires Valid()
      modifies this, trafficService
      ensures Valid()
      ensures r.Ok? <==> initial.Ok?
      ensures r.Ok? ==> r.value.status == Running && r.value.tripId == trip.id
                        && r.value.id !in old(trafficService.activeJobs.entries)
                        && r.value.id in trafficService.activeJobs.entries
                        && trafficService.activeJobs.entries[r.value.id] == r.value
                        && tracked == old(tracked) + {r.value.id}
      ensures r.Err? ==> tracked == old(tracked)
      ensures var id := Monitoring.JobId(old(trafficService.nextJob));
              id !in old(trafficService.activeJobs.entries)
              && trafficService.activeJobs.entries.Keys == old(trafficService.activeJobs.entries.Keys) + {id}
              && trafficService.activeJobs.entries[id].tripId == trip.id
              && (r.Ok? ==> r.value.id == id)
      ensures forall id :: id in old(trafficService.activeJobs.entries) ==>
                id in trafficService.activeJobs.entries
                && trafficService.activeJobs.entries[id] == old(trafficService.activeJobs.entries[id])
      ensures periodicArmed == old(periodicArmed)
    {
      r := trafficService.StartMonitoring(trip, now, initial);
      if r.Ok? {
        tracked := tracked + {r.value.id};
      }
    }


    /**
     * One firing of the minute timer: a job is started for each trip now due that has no
     * RUNNING tracked job, then every COMPLETED or FAILED job is forgotten.
     */
    method PeriodicTick(now: int, day: int, minuteOfDay: nat, initial: Trip -> Result<seq<Route>>)
      requires Valid() && minuteOfDay < 1440
      modifies this, trafficService
      ensures Valid()
      ensures forall id :: id in old(trafficService.activeJobs.entries) ==>
                id in trafficService.activeJobs.entries
                && trafficService.activeJobs.entries[id] == old(trafficService.activeJobs.entries[id])
      ensures forall id :: id in trafficService.activeJobs.entries && id !in old(trafficService.activeJobs.entries) ==>
                var t := trafficService.activeJobs.entries[id].tripId;
                !old(RunningFor(t)) && t in TripIds(Trips.DueTrips(tripService.trips.Values(), day, minuteOfDay))
      ensures forall d :: d in Trips.DueTrips(tripService.trips.Values(), day, minuteOfDay) && !old(RunningFor(d.id)) ==>
                d.id in NewJobTrips(trafficService.activeJobs.entries, old(trafficService.activeJobs.entries))
      ensures forall d :: (d in Trips.DueTrips(tripService.trips.Values(), day, minuteOfDay) && !old(RunningFor(d.id))
                           && initial(d).Ok?) ==> RunningFor(d.id)
      ensures forall id :: id in tracked ==> StatusOf(id) != Completed && StatusOf(id) != Failed
      ensures forall id :: id in old(tracked) && old(StatusOf(id)) == Running ==> id in tracked
      ensures forall id :: id in tracked && id !in old(tracked) ==>
                id !in old(trafficService.activeJobs.entries) && StatusOf(id) == Running
                && var t := trafficService.activeJobs.entries[id].tripId; !old(RunningFor(t))
      ensures forall id1, id2 :: (id1 in tracked - old(tracked) && id2 in tracked - old(tracked)
                                  && trafficService.activeJobs.entries[id1].tripId
                                     == trafficService.activeJobs.entries[id2].tripId) ==> id1 == id2
    {
      ghost var tracked0, jobs0, running0 := tracked, trafficService.activeJobs.entries, RunningTrips();
      var due := tripService.GetActiveTripsForTime(day, minuteOfDay);
      StartDueJobs(due, now, initial, tracked0, jobs0, running0);
      ghost var started := tracked;
      ForgetFinished();
      TickOutcome(trafficService.activeJobs.entries, started, tracked, tracked0, jobs0, running0, due, initial);
    }

    /** The start loop of the tick over the trips now due. */
    method StartDueJobs(due: seq<Trip>, now: int, initial: Trip -> Result<seq<Route>>, ghost tracked0: set<string>,
                        ghost jobs0: map<string, MonitoringJob>, ghost running0: set<string>)
      requires Valid() && TickProgress(trafficService.activeJobs.entries, tracked, tracked0, jobs0, running0)
      requires tracked0 <= jobs0.Keys
      requires running0 == set id | id in tracked0 && jobs0[id].status == Running :: jobs0[id].tripId
      requires trafficService.activeJobs.entries == jobs0
      modifies this, trafficService
      ensures Valid() && TickProgress(trafficService.activeJobs.entries, tracked, tracked0, jobs0, running0)
      ensures TickStarted(trafficService.activeJobs.entries, tracked, jobs0, running0, due, initial)
    {
      var i := 0;
      while i < |due|
        invariant 0 <= i <= |due|
        invariant Valid() && TickProgress(trafficService.activeJobs.entries, tracked, tracked0, jobs0, running0)
        invariant TickStarted(trafficService.activeJobs.entries, tracked, jobs0, running0, due[..i], initial)
      {
        Seqs.PrefixNext(due, i);
        StartIfIdle(due[i], now, initial, tracked0, jobs0, running0, due[..i]);
        i := i + 1;
      }
      Seqs.PrefixAll(due);
    }

    /** The loop body of the tick: a trip without a RUNNING tracked job gets a job started. */
    method StartIfIdle(trip: Trip, now: int, initial: Trip -> Result<seq<Route>>, ghost tracked0: set<string>,
                       ghost jobs0: map<string, MonitoringJob>, ghost running0: set<string>, ghost done: seq<Trip>)
      requires Valid() && TickProgress(trafficService.activeJobs.entries, tracked, tracked0, jobs0, running0)
      requires TickStarted(trafficService.activeJobs.entries, tracked, jobs0, running0, done, initial)
      requires tracked0 <= jobs0.Keys
      requires running0 == set id | id in tracked0 && jobs0[id].status == Running :: jobs0[id].tripId
      modifies this, trafficService
      ensures Valid() && TickProgress(trafficService.activeJobs.entries, tracked, tracked0, jobs0, running0)
      ensures TickStarted(trafficService.activeJobs.entries, tracked, jobs0, running0, done + [trip], initial)
    {
      RunningSinceTick(trafficService.activeJobs.entries, tracked, tracked0, jobs0, running0);
      if !RunningFor(trip.id) {
        StartIdle(trip, now, initial, tracked0, jobs0, running0, done);
      } else {
        TickSkipStep(trafficService.activeJobs.entries, tracked, jobs0, running0, done, trip, initial);
      }
    }

    /** The start branch of the tick's loop body, for a trip that was not running and has no RUNNING tracked job. */
    method StartIdle(trip: Trip, now: int, initial: Trip -> Result<seq<Route>>, ghost tracked0: set<string>,
                     ghost jobs0: map<string, MonitoringJob>, ghost running0: set<string>, ghost done: seq<Trip>)
      requires Valid() && TickProgress(trafficService.activeJobs.entries, tracked, tracked0, jobs0, running0)
      requires TickStarted(trafficService.activeJobs.entries, tracked, jobs0, running0, done, initial)
      requires trip.id !in running0 && trip.id !in RunningTripIds(trafficService.activeJobs.entries, tracked)
      modifies this, trafficService
      ensures Valid() && TickProgress(trafficService.activeJobs.entries, tracked, tracked0, jobs0, running0)
      ensures TickStarted(trafficService.activeJobs.entries, tracked, jobs0, running0, done + [trip], initial)
    {
      ghost var jobs1, tracked1 := trafficService.activeJobs.entries, tracked;
      ghost var n := Monitoring.JobId(trafficService.nextJob);
      var r := StartJob(trip, now, initial(trip));
      ghost var jobs := trafficService.activeJobs.entries;
      assert jobs == jobs1[n := jobs[n]];
      TickProgressStep(jobs1, tracked1, jobs, tracked, tracked0, jobs0, running0, trip, n);
      TickStartedStep(jobs1, tracked1, jobs, tracked, jobs0, running0, done, trip, initial, n);
    }

    /** The cleanup loop of the tick: every tracked job that is COMPLETED or FAILED is deleted. */
    method ForgetFinished()
      requires Valid()
      modifies this
      ensures Valid()
      ensures tracked == set id | id in old(tracked) && StatusOf(id) != Completed && StatusOf(id) != Failed
      ensures periodicArmed == old(periodicArmed)
    {
      var todo := tracked;
      while todo != {}
        invariant todo <= tracked <= old(tracked)
        invariant Valid()
        invariant forall id :: id in old(tracked) ==>
                    (id in tracked <==> id in todo || (StatusOf(id) != Completed && StatusOf(id) != Failed))
        invariant periodicArmed == old(periodicArmed)
        decreases todo
      {
        var id :| id in todo;
        if StatusOf(id) == Completed || StatusOf(id) == Failed {
          tracked := tracked - {id};
        }
        todo := todo - {id};
      }
    }

    /**
     * What the stop loop of `shutdown` keeps against the jobs `jobs0` it began with: the same
     * job ids, every job of `all` no longer in `todo` COMPLETED with no timer, every other job
     * untouched.
     */
    ghost predicate StoppedJobs(jobs0: map<string, MonitoringJob>, all: set<string>, todo: set<string>)
      reads this, trafficService
    {
      var entries := trafficService.activeJobs.entries;
      entries.Keys == jobs0.Keys
      && (forall id :: id in all && id !in todo && id in entries ==>
            entries[id].status == Completed && id !in trafficService.timers)
      && (forall id :: id in jobs0 && !(id in all && id !in todo) ==> entries[id] == jobs0[id])
    }

    /**
     * `shutdown`: the minute timer is cleared, every tracked job is stopped through the
     * scheduler (which marks it COMPLETED and clears its timer), and nothing stays tracked.
     */
    method Shutdown()
      requires Valid()
      modifies this, trafficService
      ensures Valid()
      ensures tracked == {} && !periodicArmed
      ensures trafficService.activeJobs.entries.Keys == old(trafficService.activeJobs.entries.Keys)
      ensures forall id :: id in old(tracked) ==>
                id in trafficService.activeJobs.entries && StatusOf(id) == Completed && id !in trafficService.timers
      ensures forall id :: id in old(trafficService.activeJobs.entries) && id !in old(tracked) ==>
                trafficService.activeJobs.entries[id] == old(trafficService.activeJobs.entries[id])
    {
      periodicArmed := false;
      ghost var jobs0 := trafficService.activeJobs.entries;
      var todo := tracked;
      while todo != {}
        invariant todo <= tracked
        invariant Valid() && tracked == old(tracked) && !periodicArmed
        invariant StoppedJobs(jobs0, tracked, todo)
        decreases todo
      {
        var id :| id in todo;
        StopTracked(id, jobs0, todo);
        todo := todo - {id};
      }
      tracked := {};
    }

    /** The loop body of `shutdown`: one tracked job is stopped through the scheduler. */
    method StopTracked(id: string, ghost jobs0: map<string, MonitoringJob>, ghost todo: set<string>)
      requires Valid() && id in todo && todo <= tracked && StoppedJobs(jobs0, tracked, todo)
      modifies trafficService
      ensures Valid() && StoppedJobs(jobs0, tracked, todo - {id})
    {
      ghost var before := trafficService.activeJobs.entries;
      var found := trafficService.StopMonitoring(id);
      assert trafficService.activeJobs.entries == before[id := before[id].(status := Completed)];
    }
  }
}
