/**
 * The alert store, rate limiter and notification gate (`NotificationService`): alerts are
 * validated and appended to a per-trip history, each alert leaves a (trip, road, time)
 * cooldown entry, and delivery is refused in quiet hours or without an email address.
 * "Now" is a parameter: milliseconds for timestamps, minute of the day for the clock.
 */
module Notifications {
  import opened Wrappers
  import opened Text
  import opened Clock
  import opened OrderedMaps
  import opened Types
  import opened Sorting
  import Seqs

  const CooldownMinutes: int := 15
  const CooldownMs: int := CooldownMinutes * 60 * 1000

  /** A cooldown entry: an alert for this trip and road was created at this time. */
  datatype RateEntry = RateEntry(tripId: string, routeName: string, timestamp: int)

  // ---------------------------------------------------------------------------------------
  // Threshold evaluation on the worst route

  /** A route's delay in minutes, unrounded. */
  function DelayMinutes(route: Route): real {
    route.delay as real / 60.0
  }

  /** The largest delay in minutes over the routes, starting from 0. */
  function WorstDelayMinutes(routes: seq<Route>): (m: real)
    ensures m >= 0.0
    ensures forall i :: 0 <= i < |routes| ==> DelayMinutes(routes[i]) <= m
    ensures m == 0.0 || exists i :: 0 <= i < |routes| && m == DelayMinutes(routes[i])
  {
    if routes == [] then 0.0
    else
      var k := |routes| - 1;
      var prev := WorstDelayMinutes(routes[..k]);
      assert forall i :: 0 <= i < k ==> routes[..k][i] == routes[i];
      var d := DelayMinutes(routes[k]);
      if d > prev then d else prev
  }

  /** The largest delay percentage over the routes, starting from 0. */
  function WorstDelayPercentage(routes: seq<Route>): (m: real)
    ensures m >= 0.0
    ensures forall i :: 0 <= i < |routes| ==> routes[i].delayPercentage <= m
    ensures m == 0.0 || exists i :: 0 <= i < |routes| && m == routes[i].delayPercentage
  {
    if routes == [] then 0.0
    else
      var k := |routes| - 1;
      var prev := WorstDelayPercentage(routes[..k]);
      assert forall i :: 0 <= i < k ==> routes[..k][i] == routes[i];
      var p := routes[k].delayPercentage;
      if p > prev then p else prev
  }

  /** Some route exists and the worst one reaches the trip's MINUTES or PERCENTAGE threshold. */
  predicate AlertWarranted(trip: Trip, routes: seq<Route>) {
    routes != []
    && ((trip.alertThreshold.kind == Minutes && WorstDelayMinutes(routes) >= trip.alertThreshold.value)
        || (trip.alertThreshold.kind == Percentage && WorstDelayPercentage(routes) >= trip.alertThreshold.value))
  }

  /** Visiting one more route updates each running maximum by that route alone. */
  lemma WorstStep(routes: seq<Route>, i: nat)
    requires i < |routes|
    ensures DelayMinutes(routes[i]) > WorstDelayMinutes(routes[..i]) ==>
              WorstDelayMinutes(routes[..i + 1]) == DelayMinutes(routes[i])
    ensures DelayMinutes(routes[i]) <= WorstDelayMinutes(routes[..i]) ==>
              WorstDelayMinutes(routes[..i + 1]) == WorstDelayMinutes(routes[..i])
    ensures routes[i].delayPercentage > WorstDelayPercentage(routes[..i]) ==>
              WorstDelayPercentage(routes[..i + 1]) == routes[i].delayPercentage
    ensures routes[i].delayPercentage <= WorstDelayPercentage(routes[..i]) ==>
              WorstDelayPercentage(routes[..i + 1]) == WorstDelayPercentage(routes[..i])
  {
    assert routes[..i + 1][..i] == routes[..i];
  }

  /** The scan of `shouldTriggerAlert`: the worst delay in minutes and the worst percentage. */
  method WorstOf(routes: seq<Route>) returns (worstDelay: real, worstPercentage: real)
    ensures worstDelay == WorstDelayMinutes(routes) && worstPercentage == WorstDelayPercentage(routes)
  {
    worstDelay, worstPercentage := 0.0, 0.0;
    var i := 0;
    while i < |routes|
      invariant 0 <= i <= |routes|
      invariant worstDelay == WorstDelayMinutes(routes[..i])
      invariant worstPercentage == WorstDelayPercentage(routes[..i])
    {
      WorstStep(routes, i);
      var delayMinutes := DelayMinutes(routes[i]);
      if delayMinutes > worstDelay {
        worstDelay := delayMinutes;
      }
      if routes[i].delayPercentage > worstPercentage {
        worstPercentage := routes[i].delayPercentage;
      }
      i := i + 1;
    }
    Seqs.PrefixAll(routes);
  }

  /**
   * `shouldTriggerAlert`: false without routes; MINUTES compares the worst delay in minutes,
   * PERCENTAGE the worst percentage, each floored at 0; any other kind is false.
   */
  method ShouldTriggerAlert(trip: Trip, routes: seq<Route>) returns (r: bool)
    ensures r == AlertWarranted(trip, routes)
    ensures routes == [] ==> !r
    ensures routes != [] && trip.alertThreshold.kind == Minutes ==>
              (r <==> WorstDelayMinutes(routes) >= trip.alertThreshold.value)
    ensures routes != [] && trip.alertThreshold.kind == Percentage ==>
              (r <==> WorstDelayPercentage(routes) >= trip.alertThreshold.value)
    ensures trip.alertThreshold.kind.OtherKind? ==> !r
  {
    if routes == [] {
      return false;
    }
    var worstDelay, worstPercentage := WorstOf(routes);
    match trip.alertThreshold.kind {
      case Minutes => r := worstDelay >= trip.alertThreshold.value;
      case Percentage => r := worstPercentage >= trip.alertThreshold.value;
      case OtherKind(_) => r := false;
    }
  }

  /**
   * With a positive MINUTES threshold, the worst-delay test fires exactly when some route
   * is delayed by at least the threshold.
   */
  lemma WorstDelayReachesIff(routes: seq<Route>, value: real)
    requires value > 0.0
    ensures WorstDelayMinutes(routes) >= value <==> exists i :: 0 <= i < |routes| && DelayMinutes(routes[i]) >= value
  {
  }

  /** The same for a positive PERCENTAGE threshold. */
  lemma WorstPercentageReachesIff(routes: seq<Route>, value: real)
    requires value > 0.0
    ensures WorstDelayPercentage(routes) >= value <==> exists i :: 0 <= i < |routes| && routes[i].delayPercentage >= value
  {
  }

  // ---------------------------------------------------------------------------------------
  // Rate limiting

  /** `shouldCreateAlert`: no entry for exactly this trip and road is younger than the cooldown. */
  predicate ShouldCreateAlertAt(entries: seq<RateEntry>, tripId: string, routeName: string, now: int) {
    forall i :: 0 <= i < |entries| ==>
      !(entries[i].tripId == tripId && entries[i].routeName == routeName && now - entries[i].timestamp < CooldownMs)
  }

  /** `cleanOldRateLimitEntries`: keeps the entries younger than twice the cooldown, in order. */
  function Prune(entries: seq<RateEntry>, now: int): (r: seq<RateEntry>)
    ensures forall e :: e in r <==> e in entries && now - e.timestamp < 2 * CooldownMs
    ensures |r| <= |entries|
    ensures |entries| == 1 ==> r == (if now - entries[0].timestamp < 2 * CooldownMs then entries else [])
  {
    if entries == [] then []
    else
      assert entries == [entries[0]] + entries[1..];
      var rest := Prune(entries[1..], now);
      if now - entries[0].timestamp < 2 * CooldownMs then [entries[0]] + rest else rest
  }

  /** Pruning works entry by entry: it distributes over concatenation, so order and repetitions are kept. */
  lemma {:induction false} PruneAppend(a: seq<RateEntry>, b: seq<RateEntry>, now: int)
    ensures Prune(a + b, now) == Prune(a, now) + Prune(b, now)
  {
    if a == [] {
      assert a + b == b;
    } else {
      var e, t := a[0], a[1..];
      assert a == [e] + t;
      assert a + b == [e] + (t + b);
      if now - e.timestamp < 2 * CooldownMs {
        calc {
          Prune(a + b, now);
          { PruneCons(e, t + b, now); }
          [e] + Prune(t + b, now);
          { PruneAppend(t, b, now); }
          [e] + (Prune(t, now) + Prune(b, now));
          ([e] + Prune(t, now)) + Prune(b, now);
          { PruneCons(e, t, now); }
          Prune(a, now) + Prune(b, now);
        }
      } else {
        calc {
          Prune(a + b, now);
          { PruneCons(e, t + b, now); }
          Prune(t + b, now);
          { PruneAppend(t, b, now); }
          Prune(t, now) + Prune(b, now);
          { PruneCons(e, t, now); }
          Prune(a, now) + Prune(b, now);
        }
      }
    }
  }

  /** Pruning a sequence with one entry in front. */
  lemma PruneCons(e: RateEntry, t: seq<RateEntry>, now: int)
    ensures now - e.timestamp < 2 * CooldownMs ==> Prune([e] + t, now) == [e] + Prune(t, now)
    ensures now - e.timestamp >= 2 * CooldownMs ==> Prune([e] + t, now) == Prune(t, now)
  {
    assert ([e] + t)[1..] == t;
  }

  /** Pruning at time t never changes a later cooldown decision. */
  lemma PruneKeepsDecisions(entries: seq<RateEntry>, t: int, now: int, tripId: string, routeName: string)
    requires now >= t
    ensures ShouldCreateAlertAt(Prune(entries, t), tripId, routeName, now) == ShouldCreateAlertAt(entries, tripId, routeName, now)
  {
    var pruned := Prune(entries, t);
    if !ShouldCreateAlertAt(entries, tripId, routeName, now) {
      var i :| 0 <= i < |entries| && entries[i].tripId == tripId && entries[i].routeName == routeName
               && now - entries[i].timestamp < CooldownMs;
      assert entries[i] in pruned;
      var j :| 0 <= j < |pruned| && pruned[j] == entries[i];
    }
  }

  /** Entries for any other trip or road never block an alert. */
  lemma OtherRoadsIndependent(entries: seq<RateEntry>, e: RateEntry, tripId: string, routeName: string, now: int)
    requires e.tripId != tripId || e.routeName != routeName
    ensures ShouldCreateAlertAt(entries + [e], tripId, routeName, now) == ShouldCreateAlertAt(entries, tripId, routeName, now)
  {
    var ext := entries + [e];
    assert forall i :: 0 <= i < |entries| ==> ext[i] == entries[i];
  }

  /**
   * An alert at t0 blocks its trip and road 14 minutes later; 16 minutes later it no longer
   * does, provided no entry for them is newer than t0.
   */
  lemma CooldownWindow(entries: seq<RateEntry>, tripId: string, routeName: string, t0: int)
    requires RateEntry(tripId, routeName, t0) in entries
    ensures !ShouldCreateAlertAt(entries, tripId, routeName, t0 + 14 * 60 * 1000)
    ensures (forall e :: e in entries && e.tripId == tripId && e.routeName == routeName ==> e.timestamp <= t0) ==>
              ShouldCreateAlertAt(entries, tripId, routeName, t0 + 16 * 60 * 1000)
  {
    var i :| 0 <= i < |entries| && entries[i] == RateEntry(tripId, routeName, t0);
  }

  // ---------------------------------------------------------------------------------------
  // Delivery gate

  /**
   * `isInQuietHours` at the given minute of the day: false unless quiet hours are enabled
   * with a non-empty start and end; a window whose start is after its end wraps midnight.
   * Times are compared as texts, the current time in zero-padded "HH:MM" form.
   */
  function IsInQuietHours(user: User, minuteOfDay: nat): (r: bool)
    requires minuteOfDay < 1440
    ensures r ==> user.settings.quietHours.Some? && user.settings.quietHours.value.enabled
    ensures r ==> user.settings.quietHours.value.start != "" && user.settings.quietHours.value.end != ""
  {
    match user.settings.quietHours
    case None => false
    case Some(q) =>
      if !q.enabled || q.start == "" || q.end == "" then false
      else
        var now := FormatTime(minuteOfDay);
        if StrLess(q.end, q.start) then StrLessEq(q.start, now) || StrLessEq(now, q.end)
        else StrLessEq(q.start, now) && StrLessEq(now, q.end)
  }

  /**
   * For zero-padded start and end times the text comparison is the clock comparison: a
   * window with start after end holds the minutes from start to midnight and from midnight
   * to end; otherwise it holds start to end, both inclusive.
   */
  lemma QuietHoursByMinutes(user: User, minuteOfDay: nat)
    requires minuteOfDay < 1440
    requires user.settings.quietHours.Some? && user.settings.quietHours.value.enabled
    requires IsPaddedTime(user.settings.quietHours.value.start) && IsPaddedTime(user.settings.quietHours.value.end)
    ensures var s := MinuteOfDay(user.settings.quietHours.value.start);
            var e := MinuteOfDay(user.settings.quietHours.value.end);
            IsInQuietHours(user, minuteOfDay) <==>
              if s > e then minuteOfDay >= s || minuteOfDay <= e else s <= minuteOfDay <= e
  {
    var q := user.settings.quietHours.value;
    var now := FormatTime(minuteOfDay);
    PaddedOrderIsTimeOrder(q.end, q.start);
    PaddedOrderIsTimeOrder(q.start, now);
    PaddedOrderIsTimeOrder(now, q.end);
  }

  /**
   * `sendNotification`: false in quiet hours, checked first; then false for an empty or
   * all-whitespace email; true otherwise. The message itself is console output.
   */
  function SendNotification(user: User, minuteOfDay: nat): (delivered: bool)
    requires minuteOfDay < 1440
    ensures IsInQuietHours(user, minuteOfDay) ==> !delivered
    ensures !IsInQuietHours(user, minuteOfDay) ==>
              (delivered <==> exists i :: 0 <= i < |user.email| && !IsWhitespace(user.email[i]))
  {
    BlankIffAllWhitespace(user.email);
    if IsInQuietHours(user, minuteOfDay) then false
    else if user.email == "" || IsBlank(user.email) then false
    else true
  }

  // ---------------------------------------------------------------------------------------
  // The service

  function AlertId(n: nat): string { "alert-" + NatToString(n) }

  /** `createAlert`'s validation: the trip's id and name and the route's id and name must be non-empty. */
  function AlertValidationError(trip: Trip, route: Route): (r: Option<string>)
    ensures r == None <==> trip.id != "" && trip.name != "" && route.id != "" && route.name != ""
    ensures (trip.id == "" || trip.name == "") ==> r == Some("Invalid trip data")
    ensures trip.id != "" && trip.name != "" && (route.id == "" || route.name == "") ==> r == Some("Invalid route data")
  {
    if trip.id == "" || trip.name == "" then Some("Invalid trip data")
    else if route.id == "" || route.name == "" then Some("Invalid route data")
    else None
  }

  function Timestamp(a: TrafficAlert): int { a.timestamp }

  class NotificationService {
    /** Alerts by trip id, oldest first. */
    var alertHistory: OrderedMap<string, seq<TrafficAlert>>
    /** Cooldown entries, oldest first. */
    var recentAlerts: seq<RateEntry>
    var nextAlert: nat

    ghost predicate Valid()
      reads this
    {
      alertHistory.Valid()
    }

    constructor ()
      ensures Valid() && alertHistory.keys == [] && recentAlerts == []
    {
      alertHistory := Empty();
      recentAlerts := [];
      nextAlert := 0;
    }

    function History(tripId: string): (r: seq<TrafficAlert>)
      reads this
      ensures tripId in alertHistory.entries ==> r == alertHistory.entries[tripId]
      ensures tripId !in alertHistory.entries ==> r == []
    {
      alertHistory.Get(tripId).GetOr([])
    }

    /**
     * `createAlert`: after validation, which changes nothing when it fails, the alert is
     * appended to the trip's history and a cooldown entry is recorded, then stale entries
     * are pruned.
     */
    method CreateAlert(trip: Trip, route: Route, allRoutes: seq<Route>, now: int) returns (r: Result<TrafficAlert>)
      requires Valid()
      modifies this
      ensures Valid()
      ensures r.Err? <==> AlertValidationError(trip, route).Some?
      ensures r.Err? ==> r.msg == AlertValidationError(trip, route).value
                         && alertHistory == old(alertHistory) && recentAlerts == old(recentAlerts)
      ensures r.Ok? ==>
                r.value.tripId == trip.id && r.value.timestamp == now && r.value.triggeredBy == route.name
                && r.value.delayMinutes == Round(route.delay as real / 60.0)
                && r.value.reason == (if Truthy(route.reason) then route.reason.value else "Traffic delay detected")
                && r.value.routes == allRoutes && r.value.userAction == None
                && alertHistory == old(alertHistory).Put(trip.id, old(History(trip.id)) + [r.value])
                && recentAlerts == Prune(old(recentAlerts) + [RateEntry(trip.id, route.name, now)], now)
    {
      var err := AlertValidationError(trip, route);
      if err.Some? {
        return Err(err.value);
      }
      var reason := if Truthy(route.reason) then route.reason.value else "Traffic delay detected";
      var alert := TrafficAlert(AlertId(nextAlert), trip.id, now, route.name,
                                Round(route.delay as real / 60.0), reason, allRoutes, None);
      nextAlert := nextAlert + 1;
      alertHistory := alertHistory.Put(trip.id, History(trip.id) + [alert]);
      recentAlerts := recentAlerts + [RateEntry(trip.id, route.name, now)];
      recentAlerts := Prune(recentAlerts, now);
      return Ok(alert);
    }

    /** `shouldCreateAlert` at time `now`. */
    function ShouldCreateAlert(tripId: string, routeName: string, now: int): (r: bool)
      reads this
      ensures r <==> ShouldCreateAlertAt(recentAlerts, tripId, routeName, now)
    {
      forall i :: 0 <= i < |recentAlerts| ==>
        !(recentAlerts[i].tripId == tripId && recentAlerts[i].routeName == routeName
          && now - recentAlerts[i].timestamp < CooldownMs)
    }

    /** `getAlertHistory`: the trip's alerts, newest first. */
    function GetAlertHistory(tripId: string): (r: seq<TrafficAlert>)
      reads this
      ensures SortedDesc(r, Timestamp)
      ensures multiset(r) == multiset(History(tripId))
      ensures forall k :: KeyFilter(r, Timestamp, k) == KeyFilter(History(tripId), Timestamp, k)
    {
      SortDescStable(History(tripId), Timestamp);
      SortDesc(History(tripId), Timestamp)
    }

    /** `getTotalAlertCount`: the number of alerts over all trips. */
    method GetTotalAlertCount() returns (total: nat)
      requires Valid()
      ensures total == TotalLength(alertHistory.Values())
      ensures forall t :: t in alertHistory.entries ==> |alertHistory.entries[t]| <= total
    {
      var hs := alertHistory.Values();
      total := 0;
      var i := 0;
      while i < |hs|
        invariant 0 <= i <= |hs|
        invariant total == TotalLength(hs[..i])
      {
        Seqs.PrefixNext(hs, i);
        total := total + |hs[i]|;
        i := i + 1;
      }
      Seqs.PrefixAll(hs);
      forall t | t in alertHistory.entries
        ensures |alertHistory.entries[t]| <= total
      {
        assert hs[IndexOf(alertHistory.keys, t)] == alertHistory.entries[t];
      }
    }

    /** Every alert of the flattened history is stored under some trip. */
    lemma FlattenedAlertsStored()
      requires Valid()
      ensures forall a :: a in Flatten(alertHistory.Values()) ==>
                exists t :: t in alertHistory.entries && a in alertHistory.entries[t]
    {
      forall a | a in Flatten(alertHistory.Values())
        ensures exists t :: t in alertHistory.entries && a in alertHistory.entries[t]
      {
        var i :| 0 <= i < |alertHistory.Values()| && a in alertHistory.Values()[i];
        assert alertHistory.keys[i] in alertHistory.entries;
      }
    }

    /**
     * `getRecentAlerts`: the newest `limit` alerts over all trips, newest first. The result
     * is drawn from the stored alerts, and no alert left out is newer than one kept.
     */
    function GetRecentAlerts(limit: nat): (r: seq<TrafficAlert>)
      reads this
      requires Valid()
      ensures |r| == if limit <= TotalLength(alertHistory.Values()) then limit else TotalLength(alertHistory.Values())
      ensures SortedDesc(r, Timestamp)
      ensures multiset(r) <= multiset(Flatten(alertHistory.Values()))
      ensures forall a, b :: a in multiset(Flatten(alertHistory.Values())) - multiset(r) && b in r ==>
                Timestamp(a) <= Timestamp(b)
      ensures forall a :: a in r ==> exists t :: t in alertHistory.entries && a in alertHistory.entries[t]
      ensures forall k :: KeyFilter(r, Timestamp, k) <= KeyFilter(Flatten(alertHistory.Values()), Timestamp, k)
    {
      var all := Flatten(alertHistory.Values());
      var sorted := SortDesc(all, Timestamp);
      var n := if limit <= |sorted| then limit else |sorted|;
      SortDescStable(all, Timestamp);
      forall k ensures KeyFilter(sorted[..n], Timestamp, k) <= KeyFilter(all, Timestamp, k)
      {
        TakeKeyFilter(sorted, Timestamp, n, k);
      }
      TakeSorted(sorted, Timestamp, n);
      TakeSortedNewest(sorted, Timestamp, n);
      FlattenedAlertsStored();
      assert forall a :: a in sorted[..n] ==> a in all by {
        forall a | a in sorted[..n]
          ensures a in all
        {
          assert a in multiset(sorted[..n]);
        }
      }
      sorted[..n]
    }

    /**
     * `updateAlertAction`: the first alert with the id, scanning the trips in insertion
     * order, gets the action; null when no alert has the id.
     */
    method UpdateAlertAction(alertId: string, action: UserAction) returns (r: Option<TrafficAlert>)
      requires Valid()
      modifies this
      ensures Valid()
      ensures recentAlerts == old(recentAlerts)
      ensures r.None? <==> forall t :: t in old(alertHistory.entries) ==> NoAlertWithId(old(alertHistory.entries[t]), alertId)
      ensures r.None? ==> alertHistory == old(alertHistory)
      ensures r.Some? ==>
                exists i, j :: FirstAlertAt(old(alertHistory), alertId, i, j)
                  && var t := old(alertHistory.keys)[i];
                     r.value == old(alertHistory.entries[t])[j].(userAction := Some(action))
                     && alertHistory == old(alertHistory).Put(t, old(alertHistory.entries[t])[j := r.value])
    {
      var ks := alertHistory.keys;
      var i := 0;
      while i < |ks|
        invariant 0 <= i <= |ks|
        invariant alertHistory == old(alertHistory) && recentAlerts == old(recentAlerts)
        invariant forall k :: 0 <= k < i ==> NoAlertWithId(alertHistory.entries[ks[k]], alertId)
      {
        var alerts := alertHistory.entries[ks[i]];
        var j := FindAlert(alerts, alertId);
        if j.Some? {
          assert FirstAlertAt(alertHistory, alertId, i, j.value);
          var updated := alerts[j.value].(userAction := Some(action));
          alertHistory := alertHistory.Put(ks[i], alerts[j.value := updated]);
          return Some(updated);
        }
        i := i + 1;
      }
      forall t | t in alertHistory.entries
        ensures NoAlertWithId(alertHistory.entries[t], alertId)
      {
        assert ks[IndexOf(ks, t)] == t;
      }
      return None;
    }
  }

  predicate NoAlertWithId(alerts: seq<TrafficAlert>, alertId: string) {
    forall j :: 0 <= j < |alerts| ==> alerts[j].id != alertId
  }

  /**
   * Alert j of the i-th trip in insertion order has the id, no earlier trip has an alert with
   * it, and no earlier alert of that trip has it.
   */
  predicate FirstAlertAt(h: OrderedMap<string, seq<TrafficAlert>>, alertId: string, i: int, j: int) {
    0 <= i < |h.keys| && h.keys[i] in h.entries
    && 0 <= j < |h.entries[h.keys[i]]| && h.entries[h.keys[i]][j].id == alertId
    && (forall k :: 0 <= k < i ==> h.keys[k] in h.entries && NoAlertWithId(h.entries[h.keys[k]], alertId))
    && (forall k :: 0 <= k < j ==> h.entries[h.keys[i]][k].id != alertId)
  }

  /** There is one first alert with a given id, so `updateAlertAction` changes exactly one alert. */
  lemma FirstAlertUnique(h: OrderedMap<string, seq<TrafficAlert>>, alertId: string, i: int, j: int, i': int, j': int)
    requires FirstAlertAt(h, alertId, i, j) && FirstAlertAt(h, alertId, i', j')
    ensures i == i' && j == j'
  {
  }

  /** `Array.prototype.find` by id, as a position. */
  method FindAlert(alerts: seq<TrafficAlert>, alertId: string) returns (r: Option<nat>)
    ensures r.None? <==> NoAlertWithId(alerts, alertId)
    ensures r.Some? ==> r.value < |alerts| && alerts[r.value].id == alertId
                        && forall j :: 0 <= j < r.value ==> alerts[j].id != alertId
  {
    var j := 0;
    while j < |alerts|
      invariant 0 <= j <= |alerts|
      invariant forall k :: 0 <= k < j ==> alerts[k].id != alertId
    {
      if alerts[j].id == alertId {
        return Some(j);
      }
      j := j + 1;
    }
    return None;
  }
}
